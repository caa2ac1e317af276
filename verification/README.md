# Crash and concurrency protocols of StePanel, in Dafny

StePanel is a hosting control plane: panel and worker processes share one SQLite database and
drive a host that can crash at any point.  This project models the protocols that keep its state
consistent and proves what they promise, for every input, every interleaving and every crash.

How the models are built:

- A database statement or transaction, an atomic file rename, an unlink, a log append and a
  request to the root helper are one step each.  A step that fails may have taken effect anyway:
  an atomic write can fail after its rename, a commit can be reported as an error.
- Processes are a map from process id to local state.  A crash drops the local state between any
  two steps.  Results about runs are lemmas over every sequence of enabled actions, built on an
  invariant that every action keeps.
- The code that works step by step (loops, stores, caches, the host's files) is modelled again as
  classes and methods, proved against the same functions and predicates.  Where such a method runs
  beside other processes, the other processes take any number of their own steps between its own.
- Clocks, random identifiers and failures are parameters: a method is told which of its effects
  fail, and its contract says what each failure leads to and that nothing else does.  The steps of
  other processes are nondeterministic choices.  Cryptographic primitives are functions with stated hypotheses.

| modules | protocol |
|---|---|
| `StateMerge`, `ControlPlane`, `ControlPlaneStore` | revisioned control-plane state: compare-and-swap, three-way key merge, bounded retry |
| `Activation`, `AppHost`, `ActivationRuns`, `ActivationResults`, `ActivationWitness` | application activation journal, compensation and startup recovery |
| `Accounts`, `AccountTables`, `AccountStore`, `AccountStoreObject` | account rows guarded by their whole payload, the site index, session generations |
| `BackupStream`, `BackupArchive`, `BackupLayout` | the encrypted backup stream, version 2 |
| `AuditOutbox`, `AuditFlusher`, `SecurityAudit`, `AuditStore` | the audit outbox and security operations |
| `BackupSchedule`, `BackupInvariant`, `BackupResults`, `BackupScheduler`, `BackupWitness` | scheduled backups: schedules and their copies, staging, dispatch, job order |
| `TokenBuckets`, `TokenLimiter`, `RateLimiter`, `ApiLimiter` | the API token rate limiter |
| `Retention`, `RetentionHost` | backup retention with tombstones |
| `RestoreMarker`, `RestoreWorker` | the database-restore safety marker |
| `MigrationPlan`, `MigrationChanges`, `MigrationNames` | the destination plan of a cPanel import |
| `Optional`, `Names`, `Sets`, `Faults` | shared definitions |

## Where the code does not meet a property

Each of these is stated with a concrete run or input that shows the failure and with the exact
condition under which the property holds.

- A persist call that ends with an error after the recorded revision has moved leaves the new
  revision with the old snapshot: a reload that fails after an earlier reload of the call, a
  committed image that cannot be decoded, or a row that cannot be decoded when the retries are
  exhausted.  A later persist then overwrites a peer's change
  (`ControlPlane.ReloadFailureLosesPeerChange`, `ControlPlane.DecodeFailureLosesPeerChange`,
  `ControlPlane.ExhaustedRetriesLosePeerChange`).
  A run stays within the snapshot invariant exactly when no step ends a call at an image that
  differs from the snapshot (`ControlPlane.RunKeepsInvExactly`).
- Decoding a refreshed payload into a live map keeps the keys the payload does not have
  (`ControlPlaneStore.DeletedKeyStaysLive`; exactly when: `ControlPlaneStore.LiveMapAfterCommit`).
- Because of that, recording a backup's result can bring a deleted schedule back with its old due
  time.  A slot is then staged twice (`BackupWitness.SlotStagedTwice`) or the schedule advances
  without recording anything (`BackupWitness.AdvancedAlone`).  `BackupResults` says exactly which
  step sets a schedule back, and that slots are staged once and in order exactly in the runs that
  stage no such slot again.
- "The target exactly when the journal on disk reached committed" is false when the commit write
  fails after its rename and compensation completes (`ActivationWitness.CommittedButUndone`); it
  holds exactly in the runs in which no compensation drops a committed journal
  (`ActivationResults.TargetExactlyWhenCommitted`), which it faces exactly after such a write
  (`ActivationResults.TornExactly`).
- A journal left over from an earlier operation on a site decides the site's fate after a later,
  completed one (`ActivationWitness.LeftoverUndoesActivation`), which stands exactly when both lead
  to the same generation (`AppHost.RecoverSite`).
- A start or stop drives whatever unit is installed (`AppHost.StartDrivesAnotherUnit`).  The result
  is the manifest's runtime exactly when that unit is the manifest's (`AppHost.ReachedIsTarget`).
  Only something outside the panel can install another unit: from settled sites, and without a
  leftover journal, every start or stop of a run finds the manifest's
  (`ActivationResults.GoodRunIsClean`).
- A job for an intent that one dispatcher gave up can be created by another dispatcher that still
  held it, after a later slot's job (`BackupWitness.OvertakingHappens`; exactly when:
  `BackupResults.JobsInIntentOrder`).
- A safety backup taken after the job's marker was cleared comes after the job's first load
  (`RestoreMarker.LateBackupHappens`; exactly then: `RestoreMarker.LateOnlyAfterClear`).
- An approved migration plan changes when a site takes a planned name, frees a better one, or
  serves a planned domain elsewhere (`MigrationChanges.PlansChange`; exactly when:
  `MigrationChanges.RevalidationIsExact`).
- Retention stops with an error, having deleted only a part, when a backup it must discard has a
  name it refuses to delete (`RetentionHost.CopiedBackupBlocksRetention`; exactly then:
  `RetentionHost.Store.Prune`).

## Model

| member | source | states |
|---|---|---|
| `StateMerge.MergeIsReconciliation` | controlplane.go:1004-1055 | the merge yields m if and only if every key of m follows the side that moved away from the base, said without a preferred side |
| `StateMerge.MergeFailsOnClash` | controlplane.go:1004-1055 | the merge fails if and only if some key was changed to different values on both sides |
| `StateMerge.MergeIsSymmetric` | controlplane.go:1004-1055 | swapping the two changed images changes nothing, including failure |
| `StateMerge.MergeUnits` | controlplane.go:1004-1055 | merge(b,x,b)=x, merge(b,b,y)=y and merge(b,x,x)=x |
| `StateMerge.MergeIsIdempotent` | controlplane.go:924-954 | merging the same change again into the merged image gives that image, so a retry after an ambiguous commit converges |
| `StateMerge.MergeIsKeywiseSwap` | controlplane.go:1004-1055 | seen from the replaced image, a merge is a per-key compare-and-swap of the caller's changed keys |
| `StateMerge.ReapplyKey` | controlplane.go:1036-1053 | one round of the merge loop reports exactly the clashing keys and otherwise settles the key |
| `StateMerge.MergeControlPlaneState` | controlplane.go:1004-1055 | the loop over the remote image computes the merge, for missing payloads too |
| `ControlPlane.StepKeepsInvExactly` | controlplane.go:870-963 | a database step, failure, decode failure or crash of any process keeps the invariant (snapshot = image at the recorded revision, pending payload = merge of base, intent and that image) if and only if it does not end a call with the recorded revision at an image other than the snapshot |
| `ControlPlane.RunKeepsInvExactly` | controlplane.go:870-963 | a run stays within the invariant throughout if and only if none of its steps does that |
| `ControlPlane.EveryCommitIsAMerge` | controlplane.go:870-963 | every commit of every run replaces the image at revision r by the merge of its base, its intent and that image, and untouched keys keep the peer's value |
| `ControlPlane.SnapshotsAreHistory` | controlplane.go:841-868 | an idle process's snapshot is the row's image at its recorded revision |
| `ControlPlane.CommittedChangeSurvives` | controlplane.go:914-963 | a committed key value stays until a commit whose writer had read it and changed that key |
| `ControlPlane.RetryAfterUnacknowledgedSwap` | controlplane.go:924-954 | after a swap that committed but reported an error, the reload merges to the very same payload |
| `ControlPlane.UncontendedPersist` | controlplane.go:914-934 | a process that has just refreshed and meets nobody commits exactly its payload |
| `ControlPlane.ReloadDecides` | controlplane.go:936-960 | a reload ends the call with the row as snapshot if and only if a key is contested or it was the last attempt; otherwise the next swap writes the changed keys as intended and every other key as the row has it |
| `ControlPlane.ReloadFailureLosesPeerChange` | controlplane.go:937-954 | a concrete run with the double failure in which a peer's committed change is overwritten by a writer that did not touch the key |
| `ControlPlane.DecodeFailureLosesPeerChange` | controlplane.go:924-932 | the same loss after a committed image that could not be decoded |
| `ControlPlane.ExhaustedRetriesLosePeerChange` | controlplane.go:952-960 | and after exhausted retries, when the row read last could not be decoded |
| `ControlPlaneStore.StateRow.CompareAndSwap` | controlplane.go:870-912 | the swap takes effect if and only if it reaches the row at the expected revision, and succeeds if and only if it is also acknowledged |
| `ControlPlaneStore.BoundStore.Bind` | controlplane.go:841-868 | binding reads the row and records revision and snapshot together |
| `ControlPlaneStore.BoundStore.ReloadAndMerge` | controlplane.go:930-960 | the reload branch, exactly: refused over a clash with the row, given up on the last attempt, and otherwise retried with the merge; a clash is noticed before the new revision is recorded and exhausted retries after it, each with its decode failure |
| `ControlPlaneStore.BoundStore.Persist` | controlplane.go:914-963 | a commit replaced the image at some revision by the merge with it; a refusal comes only from a clash with the image then adopted or after the third attempt; with statements that work, every failed attempt is a commit by a peer; decoded commits and refusals leave the store in step; an undecoded commit does so exactly when it wrote the old snapshot back, and a failed reload whenever no reload of the call was retried |
| `ControlPlaneStore.LiveMapAfterCommit` | controlplane.go:985-1002 | overlaying the committed image on the caller's map gives that image exactly when no peer deleted a key the caller still holds |
| `ControlPlaneStore.DeletedKeyStaysLive` | controlplane.go:985-1002 | a peer's deletion that survives in the live map and is written back by the next persist |
| `Activation.PhaseDecides` | app_activation_journal.go:92-169 | while the operation's journal is on disk, the site is promised the target if the journal is committed and the previous generation otherwise |
| `Activation.JournalIsRight` | apps.go:211-231 | the journal of every accepted operation passes the recovery checks, records the files on the host as previous and the operation's aim as target |
| `Activation.RefusedExactly` | apps.go:394-416 | a deployment is refused if and only if a manifest file is there and not usable, a rollback if and only if the manifest or the rollback file is not usable, a start, stop or restart if and only if the manifest is not usable |
| `Activation.PublishedManifest` | apps.go:494-503 | the published manifest is the deployed application, the release of the rollback file or the current one, "stopped" if and only if the operation is a stop and otherwise as it was; the replaced manifest becomes the rollback file except by a start or stop |
| `Activation.RejectedExactly` | app_activation_journal.go:104-124 | recovery refuses a journal if and only if its site name, its previous generation or, once committed, its target is not usable |
| `Activation.StutterKeepsPromises` | app_activation_journal.go:92-203 | any change of a journaled site's generation, and removing the journal once its outcome is in place, leaves every site's promise |
| `Activation.OutcomeIsSettled` | app_activation_journal.go:186-203 | what recovery installs has the runtime its manifest describes, so it can be the previous generation of a later operation |
| `AppHost.Host.RestoreProcess` | apps.go:464-472 | apply, then stop if the manifest says stopped; on failure the runtime may be in any condition |
| `AppHost.Host.Publish` | apps.go:168-181 | manifest, then rollback file, then journal removal; the journal only goes when all three parts are in place |
| `AppHost.Host.Restore` | apps.go:153-182 | compensation touches one site and its journal, and removes the journal only over the previous generation |
| `AppHost.Host.Reconcile` | app_activation_journal.go:186-203 | reconciling a committed journal removes it only over the target generation |
| `AppHost.Host.OpenJournal` | app_activation_journal.go:54-80 | target and first state are written before anything else changes |
| `AppHost.Host.ApplyRuntime` | apps.go:238-249 | only the runtime and the journal's phase change, and not to committed |
| `AppHost.Host.Finish` | apps.go:265-275 | commit then cleanup; an activation is reported only over a committed journal or the target generation |
| `AppHost.Host.Activate` | apps.go:211-275 | whatever fails or crashes, and whatever else is on the host, the operation leaves its site untouched, on the previous or on the new generation, or with its journal on disk; every reported ending is true and has its exact number of failed effects: none if and only if it is activated with its journal gone, one when compensated, two when recovery is pending |
| `AppHost.Host.Transition` | apps.go:519-563 | the same for start, stop and restart, with the rollback file unchanged |
| `AppHost.Host.Operate` | apps.go:89-150 | reading the files, refusing without any effect, or running the operation with the journal that records them; without a failing effect it ends activated |
| `AppHost.ReachedIsTarget` | apps.go:519-563 | what an operation's effects add up to is what recovery would install, except exactly when a start or stop finds another unit installed than the manifest's |
| `AppHost.StartDrivesAnotherUnit` | apps.go:519-563 | for every valid manifest and every other unit installed, a start is accepted and ends with that unit, not with the target |
| `Activation.RollbackTwice` | apps.go:394-431 | rolling back a deployment runs the earlier release again and keeps the deployed one as rollback file; rolling back again returns to it |
| `AppHost.Host.RecoverOne` | app_activation_journal.go:118-167 | recovering one journal removes it only over its outcome and keeps every site's promise |
| `AppHost.Host.Recover` | app_activation_journal.go:92-169 | recovery completes if and only if every journal is acceptable and no effect fails; only acceptable journals go, one that is not stops it and stays; when all are acceptable it keeps every promise however far it gets, and leaves no journal when it completes |
| `AppHost.RecoverSite` | app_activation_journal.go:92-169 | after any number of interrupted recoveries and a complete one, a site with one journal has that journal's target or previous generation by its phase, and a site without has what it had; so a leftover journal lets a later operation stand if and only if both lead to the same generation |
| `AppHost.OperateThenRecover` | apps.go:211-275 | operation, crash anywhere, any number of crashed recoveries, one complete recovery: the site has a whole generation that agrees with the caller's answer, and other sites have what they were promised |
| `ActivationRuns.StepKeepsInv` | app_activation_journal.go:54-169 | every effect, failure, cancellation and crash of every operation, compensation and recovery, interleaved over any sites, keeps every site's record and every worker in order |
| `ActivationRuns.InstallRuns` | apps.go:153-182 | compensation and recovery reach their generation from any condition of the site |
| `ActivationResults.GoodRunIsClean` | app_activation_journal.go:92-203 | from settled sites, every operation of a run that finds no leftover journal finds its site settled, so a start or stop finds the manifest's unit installed |
| `ActivationResults.WholeGenerations` | app_activation_journal.go:92-203 | in every run from settled sites without leftover journals, once no journal is left, every site has the whole generation its last operation came to |
| `ActivationResults.TargetExactlyWhenCommitted` | apps.go:265-275 | "the target exactly when the journal on disk reached committed" holds if and only if no step of the run lets a compensation drop that committed journal; so in every run without a commit write that fails after taking effect |
| `ActivationResults.OnlyAFailedCommitIsUndone` | internal/state/atomic.go:104-120 | an applying worker turns to compensating a committed journal if and only if its commit write failed after taking effect |
| `ActivationResults.TornExactly` | internal/state/atomic.go:104-120 | the same for every step of every process: a process comes to compensate a committed journal by that step and no other |
| `ActivationResults.StepUndoes` | apps.go:153-182 | an operation is committed and undone after a step if and only if it was before or the step is a compensation dropping its committed journal |
| `ActivationResults.CompensationFollows` | apps.go:232-267 | a failed effect or a cancellation while an operation is applied leaves the process with effects that lead back to the previous generation; in any other stage a failed effect ends it |
| `ActivationWitness.CommittedButUndone` | apps.go:265-270 | the run in which that happens |
| `ActivationWitness.LeftoverDecides` | apps.go:269-273 | with a journal left over, a later operation can complete on its own target, and the next recovery installs what the leftover says |
| `ActivationWitness.LeftoverUndoesActivation` | apps.go:269-273 | a run of two deployments and a recovery: the second one is running and its journal gone, and recovery brings the first one back |
| `Accounts.EditIsValid` | accounts.go:642-843 | every accepted edit of a valid account is valid |
| `Accounts.MutatedIsValid` | accounts.go:445-483 | every account written by creation, membership, editing, recovery or suspension passes validation |
| `Accounts.EditIsOfStored` | accounts.go:642-652 | an edit is that of the stored account, and is refused without one |
| `Accounts.EditWrites` | accounts.go:642-1301 | the fields each edit sets, suspension and session generation among them, and that every other field stays |
| `Accounts.UnassignWrites` | accounts.go:809-843 | the site goes and the others stay in their order |
| `Accounts.ConsumeWrites` | accounts.go:1163-1191 | the used recovery code goes and the others stay in their order |
| `Accounts.EditRefusedExactly` | accounts.go:693-1055 | when an edit of a valid account is refused: by role, plan, number, form and ownership of the sites, suspension, a bad TOTP seed, a code that is not there, and never otherwise |
| `Accounts.CreationWrites` | accounts.go:913-1008 | the account that creation writes, when it is refused, and that a login is removed if and only if it exists |
| `Accounts.EditRaisesGeneration` | accounts.go:1249-1301 | an edit never lowers the session generation and raises it when credentials or suspension change |
| `Accounts.MutationRaisesGeneration` | accounts.go:642-668 | the same for every mutation of the store |
| `AccountTables.ReleaseKeepsIndex` | accounts.go:1422-1443 | releasing the sites an account gives up keeps the index equal to what the accounts still hold |
| `AccountTables.ClaimKeepsIndex` | accounts.go:1471-1486 | claims succeed only for free sites and extend the index by exactly the claimed ones |
| `AccountTables.WriteKeepsIndex` | accounts.go:1445-1492 | one guarded row write with its claims keeps index and rows in agreement |
| `AccountTables.GuardsHeld` | accounts.go:1445-1470 | a committed transaction found every row exactly as the process had read it |
| `AccountTables.TransactionKeepsIndex` | accounts.go:1358-1506 | a whole transaction keeps the site index equal to the projection of all account payloads |
| `AccountTables.TransactionRows` | accounts.go:1401-1495 | a committed transaction wrote every change and no other row |
| `AccountTables.CommitsExactly` | accounts.go:1401-1495 | a transaction commits if and only if every row is as its writer read it and afterwards no site has two owners |
| `AccountTables.NoSharedSite` | accounts.go:1358-1506 | no site has two owners |
| `AccountStore.StepKeepsInv` | accounts.go:378-443 | refresh, mutate-and-persist and crash of any process keep the index exact and every durable account valid |
| `AccountStore.RunKeepsInv` | accounts.go:1358-1506 | the same in every run of any number of processes |
| `AccountStore.CommitIsGuarded` | accounts.go:1445-1470 | a commit applies to the latest durable version of its own row and leaves every other row |
| `AccountStore.CommitsExactly` | accounts.go:642-668 | an accepted mutation is written if and only if it changes something, its row is the one its process had read and none of its sites was taken in between; the row then holds the new account, or is gone, and every other row is as it was |
| `AccountStore.OwnershipAgrees` | accounts.go:534-559 | the indexed ownership answer equals a scan of the tenant owner's site list |
| `AccountStore.SitesAgree` | accounts.go:596-636 | the indexed site list equals the owner's, and is empty for a member whose owner was removed |
| `AccountStore.IndexedQueriesAgree` | accounts.go:534-636 | in every reachable state the three indexed queries agree with scanning |
| `AccountStore.StepRaisesGeneration` | accounts.go:1249-1301 | no step of any process lowers an account's generation, and a credential or suspension change raises it |
| `AccountStore.GenerationNeverDecreases` | accounts.go:642-668 | over every run in which the account exists |
| `AccountStore.OldSessionNeverMatches` | auth.go:557-597 | a session fingerprint minted before a suspension toggle, password change or TOTP change never matches again while the account exists |
| `AccountStoreObject.CollectChanges` | accounts.go:1358-1399 | exactly one change for every account that differs from its row |
| `AccountStoreObject.ReleaseSites` | accounts.go:1422-1443 | the deletion loop computes the released index |
| `AccountStoreObject.ClaimSites` | accounts.go:1471-1486 | the insertion loop computes the claims, or none when a site is taken |
| `AccountStoreObject.WriteChanges` | accounts.go:1401-1495 | the two phases of the transaction in loops |
| `AccountStoreObject.CheckOwnership` | accounts.go:430-439 | the refresh's owner map finds a site with two owners if and only if there is one |
| `AccountStoreObject.Store.RefreshFromDB` | accounts.go:378-443 | the cache is replaced exactly when every row is valid and no site is shared, and untouched otherwise |
| `AccountStoreObject.Store.PersistChanged` | accounts.go:1358-1506 | it succeeds if and only if the transaction commits and is acknowledged, and the database then has it; a commit reported as failed may be there as a whole; on success the known rows are the accounts and the table, on failure they are unchanged |
| `AccountStoreObject.RefreshNeverRefused` | accounts.go:378-443 | no reachable database is refused by a refresh |
| `AccountStoreObject.OneEditOneChange` | accounts.go:1358-1399 | one edited account yields the one change of the interleaving model |
| `BackupStream.Uint32RoundTrip` | backup_encryption.go:188-196 | big-endian words are read back |
| `BackupStream.Uint32Canonical` | backup_encryption.go:291-300 | every four bytes are the encoding of the word read from them |
| `BackupStream.LengthWordParts` | backup_encryption.go:188-196 | length and final flag are never ambiguous in the word |
| `BackupStream.NonceIdentifiesPosition` | backup_encryption.go:101-108 | (index, final) maps injectively to the 12-byte nonce, as section 8 of NIST SP 800-38D requires of IVs |
| `BackupStream.BackupChunkNonce` | backup_encryption.go:101-108 | the nonce bytes written in place |
| `BackupStream.FlattenChunks` | backup_encryption.go:169-201 | the encoder's chunks make up the input, for every chunk size |
| `BackupStream.WellFormedAccepted` | backup_encryption.go:262-329 | every well-formed stream decodes to its chunks |
| `BackupStream.AcceptedIsWellFormed` | backup_encryption.go:262-329 | every stream that decodes is the framing of some chunks, and decodes to them |
| `BackupStream.ProperPrefixRejected` | backup_encryption.go:291-328 | every proper prefix is rejected |
| `BackupStream.ExtensionRejected` | backup_encryption.go:322-328 | every extension is rejected |
| `BackupStream.MovedFrameRejected` | backup_encryption.go:291-320 | a frame is rejected at any position but its own |
| `BackupStream.OnlyTheOriginalOrderDecodes` | backup_encryption.go:291-328 | of all sequences of an archive's frames, with drops, repetitions and reorderings, exactly the original decodes |
| `BackupArchive.HeaderIsParsed` | backup_encryption.go:262-273 | magic, key identifier, salt and chunk size are read back |
| `BackupLayout.HeaderLayout` | backup_encryption.go:23-29 | the header byte by byte: format, key id, salt and chunk size, most significant byte first |
| `BackupLayout.NonceLayout` | backup_encryption.go:101-109 | seven zero bytes, the index and the final flag |
| `BackupLayout.FrameBytes` | backup_encryption.go:178-197 | a frame is the sealed length, with the top bit set before the final chunk, and the sealed chunk |
| `BackupLayout.FoundExactly` | backup_encryption.go:274-283 | the first configured key of at least 32 characters with the id |
| `BackupLayout.AcceptedSizes` | backup_encryption.go:262-287 | a header is refused for its chunk size if and only if that is not 1 to 16 MiB |
| `BackupArchive.DecryptReturnsInput` | backup_encryption.go:126-210 | decrypting the encryption returns the input for every input, salt and chunk size, the empty input and exact multiples included, and encryption refuses exactly the inputs with too many chunks |
| `BackupArchive.TruncatedOrExtendedRejected` | backup_encryption.go:262-329 | whole archives: no proper prefix and no extension decodes |
| `BackupArchive.RearrangedRejected` | backup_encryption.go:262-329 | whole archives: no other arrangement of the frames decodes |
| `BackupArchive.EncryptBackupArchive` | backup_encryption.go:126-210 | the encoder writes the specified archive |
| `BackupArchive.EncryptFrames` | backup_encryption.go:169-201 | the loop with one chunk of look-ahead writes the specified frames, and the index never wraps |
| `BackupArchive.FindConfiguredKey` | backup_encryption.go:274-283 | the key loop |
| `BackupArchive.DecryptBackupStream` | backup_encryption.go:262-329 | the decoder computes the specified result, error by error |
| `BackupArchive.DecryptFrames` | backup_encryption.go:288-329 | the frame loop |
| `AuditOutbox.StepKeepsInv` | audit_outbox.go:334-429 | every step of every flusher keeps: stored events wait or are published, the log is closed downwards, batches skip only published events |
| `AuditOutbox.RunKeepsInv` | audit_outbox.go:334-429 | the same over every run, and log and events only grow |
| `AuditOutbox.NothingLost` | audit_outbox.go:321-391 | in every reachable state every stored event is undelivered in the table or in the log, with the content it was stored with |
| `AuditOutbox.PrunedOnlyAfterPublication` | audit_outbox.go:393-413 | a pruned row was published |
| `AuditOutbox.FirstPublicationsInOrder` | audit_outbox.go:334-391 | first publications occur in strictly increasing id order, across all processes |
| `AuditOutbox.AppendKeepsLog` | audit_outbox.go:369-379 | publishing the head of a batch keeps everything stored earlier published earlier |
| `AuditOutbox.RowAfter` | audit_outbox.go:321-413 | a row comes undelivered with its event, a mark delivers the head of the batch and touches no other row, a failed publication counts an attempt, pruning removes exactly its rows |
| `AuditFlusher.SelectBatch` | audit_outbox.go:342-368 | the first 32 undelivered rows by id |
| `AuditFlusher.SendHead` | audit_outbox.go:369-388 | publish then mark: it succeeds if and only if neither fails, and then the row is published and delivered; so it may be after a failure that took effect |
| `AuditFlusher.Flush` | audit_outbox.go:334-391 | a flush succeeds if and only if no entry of its batch fails; then everything stored up to its last entry, or everything when the batch was not full, is published and delivered, and the backlog it found is smaller by the batch; expired rows are pruned first |
| `AuditFlusher.BacklogShrinks` | audit_outbox.go:342-391 | a batch has 32 rows, or all that wait when fewer do, and a successful flush takes them from the backlog |
| `AuditFlusher.SelectPruning` | audit_outbox.go:393-413 | the rows delivered more than 90 days ago, at most 500, the earliest delivered first |
| `SecurityAudit.StepKeepsInv` | audit_outbox.go:140-298 | every step keeps the account of events per operation and the content of the initiated, outcome and reconciliation events |
| `SecurityAudit.OneEventPerMove` | audit_outbox.go:140-298 | in every reachable state an operation has exactly one initiated event, and one terminal event exactly when it is no longer pending; both wait or are published, and while the row exists they say what it says |
| `SecurityAudit.TerminalIsFinal` | audit_outbox.go:172-298 | a completed or reconciled operation never changes again, except to be pruned |
| `SecurityAudit.PendingMoves` | audit_outbox.go:251-298 | a pending operation moves only by its own matching outcome, or by a reconciliation of a stale or known-failed operation |
| `SecurityAudit.OutcomeIsIdempotent` | audit_outbox.go:193-206 | repeating an outcome succeeds and adds nothing, a different outcome fails and adds nothing |
| `SecurityAudit.AcceptedExactly` | audit_outbox.go:140-298 | a beginning, an outcome and a reconciliation succeed if and only if: all names and a new identifier; a pending operation under the same names, or the same outcome again; an operator, evidence that is not blank, and a pending operation three hours old or known to have failed |
| `SecurityAudit.RowAfter` | audit_outbox.go:140-413 | what each step makes of an operation's row, and that it leaves every other row alone |
| `SecurityAudit.FailureAfter` | audit_outbox.go:46-58 | a failure is remembered if and only if fewer than 1,024 are |
| `AuditStore.Store.RecordOutcomeFailure` | audit_outbox.go:46-58 | the bounded record of failed outcome writes |
| `AuditStore.Store.UnresolvedOperations` | audit_outbox.go:64-93 | the count is the size of {pending and (stale or known failed)}, nothing counted twice, and settled failures are forgotten |
| `AuditStore.UnresolvedExactly` | audit_outbox.go:64-93 | pending for more than three hours, or pending and known here to have failed |
| `BackupInvariant.StepKeepsInv` | backup_schedule.go:179-467 | every step of every scheduler, operator, worker and dispatcher keeps the schedule, outbox and job invariant, without using the site lock |
| `BackupResults.RewoundExactlyWhenSetBack` | backup_schedule.go:441-467 | a site's schedule comes to be set back if and only if a process commits one that it changed, or still holds in its live map, and that is due no later than an intent already staged |
| `BackupResults.StepKeepsAheadExactly` | backup_schedule.go:232-246 | every other step keeps the schedule due after everything staged, and that one does not |
| `BackupResults.PersistExactly` | backup_schedule.go:121-127 | an edit, deletion or result is committed if and only if no schedule was changed differently by a peer and the swap gets through; then each schedule the process changed is as it hands it over, and every other one as it was |
| `BackupResults.CopyExactly` | controlplane.go:985-1002 | the process then has the committed image over what it handed over |
| `BackupResults.SlotsStagedOnceInOrder` | backup_schedule.go:219-279 | at every site never set back, each slot is staged at most once and slots strictly increase |
| `BackupResults.StepKeepsSlots` | backup_schedule.go:232-266 | a step keeps all slots increasing if and only if it does not stage a slot of a set-back site again, or after a later one |
| `BackupResults.SlotsIncreaseExactly` | backup_schedule.go:219-279 | the same for whole runs |
| `BackupResults.AdvanceAndRecordTogether` | backup_schedule.go:232-269 | advancing and recording happen together or not at all if and only if the slot's own row is not still pending, which it never is at a site never set back; the intent carries the schedule's settings |
| `BackupResults.StagesExactly` | backup_schedule.go:219-279 | a staging transaction does something if and only if the schedule is there, enabled and due at the collected time; what it writes |
| `BackupResults.RowAfter` | backup_schedule.go:219-407 | a row comes with its staging and goes with its site or with its dispatcher's deletion, and no other way |
| `BackupResults.JobsAfter` | backup_schedule.go:385-388 | a job comes only from an enqueue of the head of a batch whose key has none |
| `BackupResults.EnqueuesExactly` | backup_schedule.go:385-407 | an intent whose key has a job is accepted if and only if the job has its settings |
| `BackupResults.LookSees` | backup_schedule.go:363-369 | a dispatcher goes on to enqueue if and only if, after its refresh, it sees the schedule enabled |
| `BackupResults.RefreshSees` | backup_schedule.go:281-294 | a refresh adopts the blob and keeps only the schedules that the blob does not have |
| `BackupResults.OneJobPerIntent` | backup_schedule.go:385-407 | in every run at most one job per intent, jobs only for staged intents, and every staged intent is pending, has its job or was given up |
| `BackupResults.RowOutlivesJobless` | backup_schedule.go:352-383 | a row disappears only once its job exists, by a dispatcher that saw the schedule missing or disabled, or with its terminated site |
| `BackupResults.StuckSiteTakesOnePlace` | backup_schedule.go:308-316 | one batch place per site, and with at most 100 pending sites each has one |
| `BackupResults.StepKeepsOrder` | backup_schedule.go:352-407 | a step keeps every site's jobs in slot order if and only if it does not first enqueue a given-up or set-back slot after a later slot's job |
| `BackupResults.JobsInIntentOrder` | backup_schedule.go:296-407 | the same for whole runs |
| `BackupWitness.SlotStagedTwice` | backup_schedule.go:441-467 | a run in which a recorded result brings a deleted schedule back and its slot is staged a second time |
| `BackupWitness.AdvancedAlone` | backup_schedule.go:262-266 | a run in which a schedule advances and no intent is recorded |
| `BackupWitness.OvertakingHappens` | backup_schedule.go:352-383 | a run whose jobs are out of order |
| `BackupScheduler.CollectDue` | backup_schedule.go:183-192 | exactly the due schedules of the process's copy |
| `BackupScheduler.SelectBatch` | backup_schedule.go:308-333 | the dispatch query's result |
| `BackupScheduler.DispatchItem` | backup_schedule.go:352-383 | a settled row is gone and has its job if the process saw the schedule enabled, and is given up if not; without trouble, at a site never set back, the row is settled; a busy site is left, and a failed lock or refresh ends the batch |
| `BackupScheduler.DispatchOutbox` | backup_schedule.go:296-348 | one batch with each site at most once: every entry without trouble is settled and, at a site never set back, does not come back; others are left, and only a failed lock, refresh or deletion stops it |
| `BackupScheduler.StageOne` | backup_schedule.go:219-279 | a transaction that does not fail records every slot it finds still due |
| `BackupScheduler.RunDueBackups` | backup_schedule.go:179-214 | one tick: a dispatch, every due slot of the process's copy staged unless its transaction failed or found it no longer due, and a second dispatch of a batch read after that |
| `TokenBuckets.ConsumeKeepsCache` | api_token_limiter.go:99-130 | map and list stay in bijection, duplicate-free, within the key limit and ordered by last use |
| `TokenBuckets.CollectKeepsCache` | api_token_limiter.go:132-145 | the same for garbage collection |
| `TokenBuckets.ConsumeSpends` | api_token_limiter.go:99-130 | a request is admitted if and only if a token is available, and takes exactly one |
| `TokenBuckets.DisplacesLeastRecent` | api_token_limiter.go:102-113 | a new key displaces a bucket if and only if there are 10,000, and then the least recently used one |
| `TokenBuckets.CollectIsUnobservable` | api_token_limiter.go:132-145 | collection changes no key's available tokens, now or later |
| `TokenLimiter.NextKeepsLimiter` | api_token_limiter.go:78-155 | requests, collections and resets keep all three caches well formed |
| `TokenLimiter.AllowedWithinAvailable` | api_token_limiter.go:78-130 | requests allowed for a key are within what was available plus what was refilled |
| `TokenLimiter.AdmissionBound` | api_token_limiter.go:78-130 | over any window without eviction or reset of its bucket, each limit allows at most burst + rate × elapsed requests |
| `TokenLimiter.TokenBound` | api_token_limiter.go:43-50 | requests with a token: at most 60, and 600 a minute |
| `TokenLimiter.AccountBound` | api_token_limiter.go:43-50 | requests of an account, with whatever tokens: at most 600, and 6,000 a minute |
| `TokenLimiter.SourceBound` | api_token_limiter.go:43-50 | requests from a source, of whatever accounts: at most 1,200, and 12,000 a minute |
| `TokenLimiter.AllowsExactly` | api_token_limiter.go:78-97 | a request is allowed if and only if its token, its account and its source each have a whole token left; an empty account or source is not asked |
| `TokenLimiter.ChargesExactly` | api_token_limiter.go:89-97 | whatever the answer, it takes a token from each limit it names that has one and nothing from any other bucket; an empty account or source is charged nowhere |
| `TokenLimiter.RefillsExactly` | api_token_limiter.go:120-124 | a bucket starts full and fills at its rate up to its burst |
| `TokenLimiter.SweepsExactly` | api_token_limiter.go:85-88 | a minute after the last collection the next request drops exactly the buckets not used for five minutes |
| `TokenLimiter.RequestAgrees` | api_token_limiter.go:78-144 | one request is answered as by a limiter that never collects, and the two keep agreeing |
| `TokenLimiter.CollectionIsUnobservable` | api_token_limiter.go:99-144 | without eviction or reset, every request sequence gets the answers of a limiter that never collects |
| `TokenLimiter.NewLimiterIsUnobservable` | api_token_limiter.go:56-68 | so it is from the creation of the limiter |
| `TokenLimiter.ResetForgetsOneToken` | api_token_limiter.go:147-159 | a reset gives its token a full bucket and changes nothing for any other token, account or source |
| `RateLimiter.BucketEntry.Charge` | api_token_limiter.go:120-130 | refill and spend on one bucket in place |
| `RateLimiter.BucketCache.Consume` | api_token_limiter.go:99-130 | map, list and buckets on the heap compute the specified cache and answer |
| `RateLimiter.BucketCache.CollectIdle` | api_token_limiter.go:132-145 | the walk from the back removes exactly the idle entries and keeps the order of the rest |
| `ApiLimiter.ApiTokenRateLimiter.Allow` | api_token_limiter.go:78-97 | over three caches on the heap that share no entry: the answer and the new state of the limiter, which `TokenLimiter` characterises by the request's own token, account and source |
| `ApiLimiter.ApiTokenRateLimiter.GarbageCollect` | api_token_limiter.go:132-145 | each cache on the heap ends as its own collection, none disturbs another |
| `Retention.BetterIsTotal` | backup_retention.go:182-200 | the sort's comparison is a strict total order on distinct names |
| `Retention.BetterIsTransitive` | backup_retention.go:182-200 | and transitive, protection included |
| `Retention.SortCandidates` | backup_retention.go:182-200 | the candidates, best first |
| `Retention.FirstAreKept` | backup_retention.go:201-208 | the first `keep` of the sorted list are exactly the candidates with fewer than `keep` better ones |
| `Retention.KeptCount` | backup_retention.go:201-208 | exactly min(keep, n) are kept |
| `Retention.KeptAreBest` | backup_retention.go:182-208 | no discarded backup is newer than a kept one, or as new with a larger name, unless the kept one is protected |
| `Retention.ProtectedIsKept` | backup_retention.go:187-192 | the protected backup is kept |
| `Retention.KeptIsStable` | backup_retention.go:109-210 | deleting some of the discarded backups changes nothing about which are kept |
| `Retention.PrunedIsStable` | backup_retention.go:109-210 | every inventory an interrupted run leaves is approved again and leads to the same result |
| `Retention.PrunedMeetsPolicy` | backup_retention.go:109-210 | other sites are untouched, min(keep, n) stay, and the protected backup stays |
| `Retention.ApprovedExactly` | backup_retention.go:109-181 | retention is refused if and only if the policy has no site, count or valid protected name, a visible directory cannot be assessed, or the protected backup is not among the site's own |
| `Retention.CandidatesExactly` | backup_retention.go:128-177 | the site's own backups are the visible directories with its name and a date in the manifest |
| `Retention.ValidNameExactly` | offsite.go:612-622 | 1 to 160 letters, digits, dots, dashes and underscores, but not "." or ".." |
| `RetentionHost.Store.Discard` | backup_retention.go:222-238 | a crash leaves the whole backup or none of it in the inventory |
| `RetentionHost.Store.RemoveTombstones` | backup_retention.go:241-260 | tombstones go, the inventory stays |
| `RetentionHost.Store.Prune` | backup_retention.go:109-210 | nothing is deleted when a manifest is unreadable or the protected backup is missing; otherwise only discarded backups go, and all of them when the run completes; without a failing effect it completes if and only if every discarded name is deletable |
| `RetentionHost.CopiedBackupBlocksRetention` | backup_retention.go:222-225 | an inventory that is approved and that retention cannot complete |
| `RetentionHost.PruneAgain` | backup_retention.go:109-260 | any number of interrupted runs and one complete run end in the inventory of one uninterrupted run, and without a failing effect they complete |
| `RestoreMarker.StepKeepsInv` | backup_restore.go:107-117 | every step of every attempt, failure and crash keeps the marker invariant |
| `RestoreMarker.SafetyBackupIsEarly` | backup_restore.go:229-262 | until a job's marker is cleared, every load relies on a safety backup taken before the job's first load |
| `RestoreMarker.MarkerNamesEarlyBackup` | backup_restore.go:1303-1308 | from the first load until then, the marker on disk names such a backup |
| `RestoreMarker.MarkerNeverRefused` | backup_restore.go:202-225 | a retry is never refused over a marker an earlier attempt wrote |
| `RestoreMarker.CheckExactly` | backup_restore.go:202-225 | a marker stops the attempt if and only if it names another site or database or an invalid backup; otherwise the attempt goes on with the backup it names |
| `RestoreMarker.LateOnlyAfterClear` | backup_restore.go:156-160 | a new safety backup is too late if and only if the marker was cleared after a load |
| `RestoreMarker.LateBackupHappens` | backup_restore.go:156-160 | the run in which a job's second safety backup is taken after its own load |
| `RestoreWorker.Secure` | backup_restore.go:107-113 | a safety backup is had if and only if the site is free, nothing fails and a name is to be had; it is the one the marker names, or a new one without a marker |
| `RestoreWorker.LoadDump` | backup_restore.go:244-262 | the load begins if and only if the marker was written, and completes if and only if it then works |
| `RestoreWorker.HandleRestoreJob` | backup_restore.go:107-160 | one attempt, cut anywhere, keeps the invariant and loads only with a recorded safety backup; it completes if and only if the site is free, a safety backup can be had, and marking and loading work; then the marker is gone unless its removal failed |
| `MigrationPlan.SiteNameForDomain` | cpmove_domains.go:244-267 | the suffix loop finds the first usable candidate |
| `MigrationPlan.SiteNameIsNamer` | cpmove_domains.go:244-267 | the name found is valid and free, and more taken names move the choice only if they include it |
| `MigrationNames.BaseNameExactly` | cpmove_domains.go:244-249 | the base of a name: the domain in lower case with dashes for dots, without dashes at its ends, cut to 32 characters and again without dashes at the end |
| `MigrationNames.CandidateExactly` | cpmove_domains.go:253-261 | the base, then the base with a dash and the attempt's number, cut before that where the whole exceeds 32 characters |
| `MigrationPlan.PlanDestinations` | cpmove_plan.go:81-132 | the mapping loop lands every domain by the names planned before it |
| `MigrationPlan.PlanIsUnique` | cpmove_plan.go:81-132 | there is one plan |
| `MigrationNames.LandsExactly` | cpmove_plan.go:81-132 | each kind of landing, if and only if: main and parked domains on the account, an own domain where it is served or on a new site with its first usable name, blocked without one, others untouched |
| `MigrationNames.EntryExactly` | cpmove_plan.go:86-128 | what the digest covers of a domain: its name in lower case, its kind and its destination in words |
| `MigrationPlan.NewNamesAreDistinct` | cpmove_plan.go:102-128 | planned new names are pairwise distinct |
| `MigrationPlan.CarriedOutPlanStands` | cpmove_plan.go:200-212 | after any of its domains were placed at their planned sites, an approved plan passes revalidation if and only if no foreign site took a planned name still needed and no such domain is listed twice |
| `MigrationPlan.RetryRebuildsTheSamePlan` | cpmove_plan.go:167-212 | for distinct domains, rebuilding after any subset was placed yields the same digest entries |
| `MigrationChanges.SiteNameIsFirstChoice` | cpmove_domains.go:244-267 | the suffix loop returns a name if and only if it is the first usable candidate |
| `MigrationChanges.RevalidationIsExact` | cpmove_plan.go:200-212 | against any later state of the account, an approved plan passes revalidation if and only if every own domain placed by then is at its planned site and every other one still has its planned name as first usable candidate |
| `MigrationChanges.PlansChange` | cpmove_plan.go:94-132 | a name taken, a site removed and a domain placed elsewhere, each changing the plan |
| `Names.SafeUserExactly` | main.go:2173-2184 | a name is usable if and only if, without the blanks around it, it has 1 to 32 lower-case letters, digits, dashes and underscores; those are the name |

## Left out

- HTTP handlers, CSRF, cookies, templates, metrics and response shapes: no protocol state.
- bcrypt, HMAC, SHA-256, HKDF, AES-GCM and secretbox: functions; the encrypted stream assumes `Correct` and, for tampering, `Ideal` (shown consistent by `BackupStream.IdealExists`), sessions a digest whose collisions never differ in the generation.
- Version 1 backup encryption and versions 1 and 2 of the activation journal: read-only legacy paths.
- Control-plane payloads that are not JSON objects: the merge of such payloads is not modelled; values are opaque tokens.
- The file-backed account store, legacy re-sealing, role and tenant normalisation of old rows, and the startup rewrite of all accounts: they assume no other process is serving.
- The 64-bit wrap-around of the session generation and of table revisions: integers are unbounded here.
- `Names.SafeUser` and the check of the reconciliation evidence in `SecurityAudit` trim the ASCII blanks only; other Unicode blanks never occur in accepted names.
- ActivationResults.WholeGenerations: speaks of runs that start with settled sites (each runtime is the one its manifest describes) and whose operations begin on sites without a leftover journal; what a leftover journal does is stated separately. The site lock and the startup barrier are assumed: one worker per site, and no recovery beside an operation on its site.
- ActivationRuns.StepKeepsInv: an operation begins on a site without a leftover journal and, for a start or stop, with the manifest's unit installed; the second follows from the first in runs from settled sites.
- AppHost.Host.Operate: the deployed manifest has passed the deploy handler's checks.
- AppHost.Host.Recover: returns the recovered identifiers as a set; the order of directory entries is not modelled, so neither is which journals a rejected one leaves unvisited.
- Accounts.EditWrites: user and plan names arrive normalised and passwords hashed; their lengths are checked before the mutation, and `EnsureSiteAssigned`, which answers success for a site the account has, writes nothing then.
- ApiLimiter.ApiTokenRateLimiter.Allow: hashed keys are the strings they are computed from.
- TokenLimiter.AdmissionBound: token arithmetic is over the reals and the clock is monotone; floating-point rounding is not modelled.
- AuditStore.Store.UnresolvedOperations: its queries see one state of the table; rows changed between two of its queries are not modelled.
- SecurityAudit.OneEventPerMove: operation identifiers are random, so an identifier whose row was pruned is not drawn again.
- BackupResults.OneJobPerIntent: jobs are never pruned in the model.
- BackupInvariant.StepKeepsInv: a persist of the schedules is one step that commits the three-way merge; the steps inside it, and calls that leave the snapshot out of step, are modelled in `ControlPlane`.
- RestoreMarker.SafetyBackupIsEarly: the site lock is assumed to exclude a second attempt on the same site while one is running; only the database modes are modelled.
- MigrationChanges.RevalidationIsExact: the digest is taken over the list of entries, of which the code hashes the sorted form; capacity, database and route blockers are not part of the model.
- Agreement between planned site names and the names chosen during import, and the existence of every member's tenant owner: the code does not promise them.
- Jobs, leases, the capacity ledger, the root broker, cloud calls, certificates and archive inspection: not part of this model.
