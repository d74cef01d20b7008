# VDS Guardian: verified model of its crash-safe protocols

VDS Guardian backs up remote hosts into a local repository of sealed, signed, encrypted
backups.  This project models the parts of it where being almost right is not enough, and
proves what they keep: over every input, every interleaving, and every point at which a process
may die.

Code that changes state step by step is modelled by classes and methods.  Each file-system
call is one atomic step that may fail, or may be the last one before a crash, before or after
its effect; after a crash no further step has any effect.  What a method promises therefore
holds at every crash point; `faults` counts the calls that failed, so that "if no call fails" is
said of the call at hand and not of the world.

| files | what they model |
|---|---|
| `RetentionDisk`, `RetentionJournal`, `RetentionHistory` | the retention transaction, its journal and its recovery; `Shows` says which logical repository a directory tree stands for, and whole histories refine atomic deletions |
| `RetentionRecovery` | recovery when several plans are open at once |
| `RetentionPlanning`, `Ordering` | policies, the inventory order, and which backups a plan deletes |
| `Calendar`, `Timestamps` | days to Gregorian dates, the timestamp validator (sections 5.6 and 5.7 of RFC 3339 without leap seconds), and string order |
| `Envelope`, `EnvelopeStreams` | the chunked AES-256-GCM envelope (NIST SP 800-38D), as functions on bytes and as the streaming loops |
| `Staging`, `CaptureUseCases`, `Sealing` | the storage port, the capture and backup use cases under arbitrary failures, and sealing against loading |
| `Cutover`, `CutoverScript` | the remote cutover script as a machine with signals and failing commands, and as the structured program the machine runs |
| `Archive`, `ReadBudget` | extraction, inspection and listing of archives, and the expansion cap |
| `Enrollment`, `Vault` | the signing identity and the vault master key, over interrupted calls |
| `RemotePaths`, `CaptureRoots` | path segments, and normalising a selection of roots |
| `Broker` | the one-shot password broker as interleaved atomic steps |
| `ShellQuote`, `RemoteBrowser` | shell quoting against POSIX tokenising, and paging with cursors |

Run `dafny verify dfyconfig.toml` to check all of it.

## Findings

Each of these is proved, with the exact condition under which the expected property does hold.

- Cutover (`Cutover.SafeExactlyOutsideWindow`): a signal between the tests inside
  `rollback_cutover` and the first `mv` they guard moves the original tree under `staging`; two
  signals without containers make the script exit 0 after deleting it.  Because `! ...` applies
  to the first command of an ungrouped list, a healthy replacement is what triggers the
  rollback, and exit 0 with containers means that twelve probes failed (`Cutover.ExitCodes`).  Exit 43 and
  a failing first `stop` leave the containers stopped without an attempt to start them
  (`CutoverScript.ContainersAreRestarted`).
- Retention: a rolled-back plan can never be executed again (`StartedPlansAreRefused`); a torn
  intent and a quarantined run named `retention-...` block every later opening; a second plan
  run beside an abandoned one strands it for good if and only if the two share a backup
  (`BesideOpenTransaction`), and so does publishing a backup under an identifier that an open
  transaction lists (`PublishKeepsShape`).
- Combined capture (`CaptureUseCases.BackupCombined`): an invalid database path is noticed only
  after the filesystem payload is staged; if nothing else fails the run is then left open.
- Sealing (`Staging.BackupStorage.Seal`): if nothing fails but the directory sync after the
  publishing rename, the call fails, the published backup stays and its payload keys are deleted.
- Broker (`Broker.ServesAfterStopExactlyWhenUnsettled`): the comment on `drop` says that running
  workers refuse to serve once stopped; a worker that has already passed the stop test does not.
- Read budget (`ReadBudget.RetryAfterError`): the limit error is not remembered.

## Model

| member | source | states |
|---|---|---|
| `RetentionHistory.AllOrNothing` | crates/guardian-local-repository/src/retention.rs:55-81 | After one execution interrupted anywhere and any number of interrupted reopenings, each reopening that completes finds all selected backups in place with their contents or all of them gone, and every other backup untouched; an execution that reported success deleted exactly its list. |
| `RetentionHistory.HistoryRefines` | crates/guardian-local-repository/src/retention_journal.rs:107-172 | Every run of executions, reopenings, publications and quarantined runs, cut off at any system call, refines a run of a logical repository in which retention is one atomic deletion and recovery changes nothing; a plan may also complete beside an open transaction that shares no backup with it. |
| `RetentionHistory.EventFollows` | crates/guardian-local-repository/src/retention_journal.rs:116-172 | One event of such a run keeps the directory tree in a shape that stands for a logical repository and acts on that repository as its specification says. |
| `RetentionHistory.BackupsAreNeverLost` | crates/guardian-local-repository/src/retention.rs:55-81 | Between any two moments of a history of directory trees, a backup that logically existed is there unchanged unless an execution in between listed it; that published identifiers are new is derived. |
| `RetentionHistory.RecoveryKeepsContents` | crates/guardian-local-repository/src/retention_journal.rs:107-138 | No number of reopenings, interrupted or not, changes which backups logically exist. |
| `RetentionHistory.SecondReopenIsNoop` | crates/guardian-local-repository/src/retention_journal.rs:107-114 | After a reconcile that succeeded, another one leaves the disk bit for bit as it was. |
| `RetentionHistory.RunExecute` | crates/guardian-local-repository/src/retention.rs:24-53 | Executing a plan on the repository makes an execution event of a history. |
| `RetentionHistory.RunReopen` | crates/guardian-local-repository/src/retention_journal.rs:107-114 | Opening the repository makes a reopening event of a history; if no call fails it succeeds exactly when the intent is not torn and no quarantined run has a `retention-` name. |
| `RetentionHistory.BesideOpenTransaction` | crates/guardian-local-repository/src/retention_journal.rs:188-204 | Any other plan that completes beside any open transaction strands it if and only if the transaction is undecided and the two share a backup; otherwise it stays open over a repository without the second plan's backups. |
| `RetentionHistory.ExecuteBesideThenReopen` | crates/guardian-local-repository/src/retention.rs:24-53 | With no further errors a current plan succeeds beside an abandoned one, and the next opening then succeeds if and only if they share no backup (and no quarantined run has a `retention-` name), leaving the first plan undone and the second done. |
| `RetentionHistory.StrandedShowsNothing` | crates/guardian-local-repository/src/retention_journal.rs:174-204 | A tree with a stranded transaction stands for no logical repository, so being stranded and keeping the shape exclude each other. |
| `RetentionHistory.StrandedForever` | crates/guardian-local-repository/src/retention_journal.rs:174-204 | A stranded transaction makes every later opening fail, and nothing on disk changes any more. |
| `RetentionRecovery.AllPlansAreSettled` | crates/guardian-local-repository/src/retention_journal.rs:107-138 | From a tree with any number of open plans that share no backup, a recovery in which no call fails finishes or undoes every one of them, in whatever order their intents are visited: decided lists are gone and recorded as completed, undecided lists are back with their contents and unrecorded, nothing else is touched, and no retention entry is left; it succeeds exactly when no quarantined run has a `retention-` name. |
| `RetentionRecovery.RecoverMany` | crates/guardian-local-repository/src/retention_journal.rs:107-114 | The repository's own operation does so. |
| `RetentionRecovery.PassSettles` | crates/guardian-local-repository/src/retention_journal.rs:107-114 | However far the pass over the intents has come, the plans visited are settled and the others stand as they did. |
| `RetentionRecovery.AnotherOpens` | crates/guardian-local-repository/src/retention.rs:55-81 | A plan left open beside open plans that list none of its backups makes one more of them. |
| `RetentionRecovery.OneIsOpen` | crates/guardian-local-repository/src/retention_journal.rs:57-74 | The open transaction of a single interrupted plan is the case of one. |
| `RetentionHistory.StartedPlansAreRefused` | crates/guardian-local-repository/src/retention.rs:119-146 | The create-new approval record outlives everything: a plan that once changed the disk, even if rolled back, is refused in every later execution and changes nothing. |
| `RetentionHistory.AuditGrows` | crates/guardian-local-repository/src/retention.rs:119-146 | No event ever removes an audit record. |
| `RetentionHistory.TornIntentBlocksEveryReopen` | crates/guardian-local-repository/src/retention_journal.rs:300-305 | An intent cut short by a crash makes every later reopening fail, with all backups kept. |
| `RetentionHistory.CrashInsideIntentIsTorn` | crates/guardian-local-repository/src/retention_journal.rs:99-104 | Such a torn intent is reachable from every state in which a plan can begin. |
| `RetentionHistory.RetentionNamedRunBlocksEveryReopen` | crates/guardian-local-repository/src/retention_journal.rs:284-298 | A quarantined run whose identifier starts with `retention-` makes every reopening fail, and stays. |
| `RetentionHistory.SecondTransactionStrandsTheFirst` | crates/guardian-local-repository/src/retention_journal.rs:188-204 | An instance from any idle repository with two backups: the first plan is abandoned with one of its two backups moved, the second plan deletes the other, and no reopening succeeds again, with the moved backup stuck in the trash. |
| `RetentionHistory.QuarantineKeepsShape` | crates/guardian-local-repository/src/repository.rs:208-223 | Quarantining any run leaves the meaning of an open transaction unchanged. |
| `RetentionHistory.PublishKeepsShape` | crates/guardian-local-repository/src/staging.rs:211-223 | Publishing a backup adds just that backup to the logical repository if and only if the open transaction does not list its identifier; otherwise that transaction is stranded. |
| `RetentionJournal.Repository.ReconcileRetention` | crates/guardian-local-repository/src/retention_journal.rs:107-114 | Whatever shape an interrupted transaction left, reconcile keeps the logical contents; success leaves no retention entry and means that no call failed; if no call fails it succeeds exactly when the intent is not torn and no quarantined run has a `retention-` name; the audit directory gains at most the completed record of the recovered plan, with exactly the intent's delete list; with several intents it is one pass over all of them. |
| `RetentionJournal.Repository.ReconcileTransaction` | crates/guardian-local-repository/src/retention_journal.rs:116-138 | One intent is finished or undone according to its marker and completion record, and a completed record is written exactly for a decided one; if no call fails this succeeds exactly when the intent is whole, and settles its plan whatever other plans are open; a stranded intent is refused without effect. |
| `RetentionJournal.Repository.ResolveTransaction` | crates/guardian-local-repository/src/retention_journal.rs:125-137 | A plan with a whole intent is settled by its own evidence alone: decided, its list goes; undecided, all of its list comes back; its journal is dropped and no other is touched; a marker or record that is no file stops it, with its own error, before any change. |
| `RetentionJournal.Repository.CleanupTransaction` | crates/guardian-local-repository/src/retention_journal.rs:140-154 | Removing trashed backups is invisible once the deletion is decided, at every crash point, and leaves no trash when it succeeds; a listed backup that is there again stops it before any change. |
| `RetentionJournal.Repository.RollbackTransaction` | crates/guardian-local-repository/src/retention_journal.rs:156-172 | Walking the moves back keeps every selected backup in exactly one place, at every crash point, and ends with all of them in `backups/`. |
| `RetentionJournal.Repository.CompleteRecovered` | crates/guardian-local-repository/src/retention_journal.rs:231-249 | A decided deletion is recorded as completed with this plan, repository and the intent's delete list; a record that is already there is accepted and kept; its journal is removed without bringing anything back. |
| `RetentionJournal.Repository.ValidateTrashEntries` | crates/guardian-local-repository/src/retention_journal.rs:206-229 | The loop over the trash accepts, if no call fails, exactly a trash whose entries are directories named in the delete list, so that working through the list reaches all of it; `RecoveryRequired` is reported for a stray entry and `UnsafeFilesystemEntry` for one of another kind. |
| `RetentionJournal.Repository.Begin` | crates/guardian-local-repository/src/retention_journal.rs:57-74 | Writing intent and trash opens a pending deletion in which nothing has been deleted yet; an intent or a trash that exists is never replaced; a crash inside leaves an idle, torn or pending repository. |
| `RetentionJournal.Repository.Finish` | crates/guardian-local-repository/src/retention_journal.rs:89-92 | Removing marker, then intent, closes a decided deletion; between the two steps it is still decided. |
| `RetentionJournal.Repository.Abort` | crates/guardian-local-repository/src/retention_journal.rs:94-97 | Removing trash, then intent, closes an undecided deletion with all backups in place. |
| `RetentionJournal.Repository.RemoveIntent` | crates/guardian-local-repository/src/retention_journal.rs:342-348 | Removing the intent of a transaction with nothing else left makes the repository idle with the same contents. |
| `RetentionJournal.Repository.ExecuteMoves` | crates/guardian-local-repository/src/retention.rs:55-81 | From an idle repository, every outcome of the transaction, including every crash point, is one of: untouched, torn, pending with all backups, decided without the list, or idle; a single failed call leaves the backups all in place or all decided, never half moved; from any directory tree whatever, success means that exactly the list is gone and only the approved and completed records are left, each with this plan, repository and list. |
| `RetentionJournal.Repository.MoveAll` | crates/guardian-local-repository/src/retention.rs:58-76 | Moving the selected backups one by one keeps the deletion undecided; success means all of them are in the trash; if one call fails, and none after it, the repository is idle again with every backup back. |
| `RetentionJournal.Repository.Conclude` | crates/guardian-local-repository/src/retention.rs:77-81 | The cleanup marker is the commit point; after it only the deletion can result. |
| `RetentionJournal.Repository.RollbackMoves` | crates/guardian-local-repository/src/retention.rs:148-157 | Undoing the moves in reverse order restores each moved backup or stops with the deletion still undecided. |
| `RetentionJournal.Repository.Undo` | crates/guardian-local-repository/src/retention.rs:62-75 | A failed move undoes the earlier ones; whatever happens the backups remain, in place or in the trash of an undecided deletion; if no call of the undoing fails, they are all in place and the journal is gone. |
| `RetentionJournal.Repository.WriteRetentionAudit` | crates/guardian-local-repository/src/retention.rs:119-146 | A record is created at most once under its name, holding the state, the plan, the repository and the delete list it is given; an existing one is a conflict and nothing changes; a crash may leave it cut short. |
| `RetentionJournal.Repository.ExecuteRetention` | crates/guardian-local-repository/src/retention.rs:24-53 | Success means that the plan's own snapshot was the inventory of the disk, its identifier the digest of its body and its repository this one, that the phrase was typed, and that exactly its list is gone with both audit records saying so; anything else changes nothing or is one of the interrupted shapes; a started plan id is refused; each refusal has its exact error, in the order of the checks; the reported counts are those of the disk; if no call fails a current, confirmed plan that left no traces succeeds, from any directory tree. |
| `RetentionJournal.Repository.CheckPlan` | crates/guardian-local-repository/src/retention.rs:24-48 | Everything execution checks before it touches the disk: without a failing call it passes exactly if nothing objects, and otherwise reports the first objection (repository, then untrusted inventory, then snapshot, then phrase). |
| `RetentionJournal.Repository.RejectOrphans` | crates/guardian-local-repository/src/retention_journal.rs:284-298 | Reconciliation ends by refusing any entry with a `retention-` name, and changes nothing. |
| `RetentionJournal.PhraseNamesThePlan` | crates/guardian-core/src/retention.rs:82-90 | The phrase typed for one plan confirms no plan with another number of deletions or another identifier. |
| `RetentionJournal.Repository.TrustedInventory` | crates/guardian-local-repository/src/inventory.rs:15-34 | The inventory lists every backup once in inventory order; it fails exactly when some entry is not a verified backup. |
| `RetentionJournal.MarkerDecides` | crates/guardian-local-repository/src/retention_journal.rs:80-83 | Once every selected backup is in the trash, creating the marker turns the pending deletion into a decided one. |
| `RetentionJournal.MoveOutKeepsView` | crates/guardian-local-repository/src/retention.rs:58-70 | Moving a selected backup into the trash does not change the logical repository while the deletion is undecided. |
| `RetentionJournal.MoveBackKeepsView` | crates/guardian-local-repository/src/retention_journal.rs:156-172 | Neither does moving it back. |
| `RetentionJournal.RemovalKeepsView` | crates/guardian-local-repository/src/retention_journal.rs:140-154 | Removing a trashed backup, wholly or in part, does not change the logical repository once the deletion is decided. |
| `RetentionJournal.InventoryIsUnique` | crates/guardian-local-repository/src/inventory.rs:15-34 | However the directory is listed, there is one inventory. |
| `RetentionDisk.ViewIsUnique` | crates/guardian-local-repository/src/retention_journal.rs:107-172 | A directory tree stands for at most one logical repository. |
| `RetentionDisk.JournalNamesAreDistinct` | crates/guardian-local-repository/src/retention_journal.rs:307-321 | The three journal names of a plan are different, none can be the identifier of a run, and the intent name gives back the plan id. |
| `RetentionDisk.PlanNamesAreInjective` | crates/guardian-local-repository/src/retention_journal.rs:319-321 | Different plans share no journal file and no audit record. |
| `RetentionDisk.IdentifiersAre` | crates/guardian-core/src/identifiers.rs:62-75 | Identifiers are exactly the texts of 1 to 64 ASCII letters, digits, hyphens and underscores, given by their codes. |
| `RetentionPlanning.DeletesTheOldest` | crates/guardian-core/src/retention.rs:104-134 | The delete list is the `len - max` oldest backups (ties by id), every deleted one is no younger than any retained one in real time, the retained count is `min(len, max)` and meets the minimum whenever anything is deleted. |
| `RetentionPlanning.DeletesAPrefix` | crates/guardian-core/src/retention.rs:104-134 | The delete list is a prefix of the inventory and the retained backups are the rest, in order. |
| `RetentionPlanning.PlanRecordsItsInputs` | crates/guardian-core/src/retention.rs:104-134 | A plan records the repository, the policy and the very snapshot it was built from, its identifier is the digest of all that, and its list names the first surplus entries; planning fails exactly when the policy's minimum would be violated. |
| `RetentionPlanning.PlanIgnoresListingOrder` | crates/guardian-local-repository/src/inventory.rs:27-32 | The order in which the directory lists the backups does not matter. |
| `RetentionPlanning.InventoryLeIsTotalOrder` | crates/guardian-local-repository/src/inventory.rs:27-32 | Sealing time, then id, is a total order, so the sort has one result. |
| `RetentionPlanning.NewPolicy` | crates/guardian-core/src/retention.rs:14-25 | A policy is accepted exactly when it keeps at least one backup and its minimum does not exceed its maximum; each refusal has its own error. |
| `RetentionPlanning.RetainedIsTail` | crates/guardian-core/src/retention.rs:74-80 | Filtering the snapshot by the delete list leaves exactly the backups after it. |
| `Calendar.CivilDateIsCorrect` | crates/guardian-capture/src/request.rs:132-145 | For every day count the result is a valid Gregorian date whose ordinary day number is that count. |
| `Calendar.CivilDateInverts` | crates/guardian-capture/src/request.rs:132-145 | Every valid date is the result for its own day number. |
| `Calendar.CivilDateSteps` | crates/guardian-capture/src/request.rs:132-145 | Consecutive counts give consecutive calendar days, without gaps. |
| `Calendar.YearOfEra` | crates/guardian-capture/src/request.rs:136-138 | The closed formula finds the year within a 400-year era and the day within that year. |
| `Calendar.MonthFormula` | crates/guardian-capture/src/request.rs:139-144 | The closed formula finds the month, counted from March, and the day within it. |
| `Calendar.DayNumberIsMonotone` | crates/guardian-core/src/identifiers.rs:297-306 | The day count orders valid dates as year, month, day do, under the same month lengths as the validator. |
| `Timestamps.FormatRoundTrip` | crates/guardian-capture/src/request.rs:118-129 | Formatting succeeds exactly for years up to 9999; the text then passes the validator and denotes the same instant. |
| `Timestamps.ValidIsFormatted` | crates/guardian-core/src/identifiers.rs:254-306 | Conversely every text the validator accepts is what formatting yields for its own instant, so the two are inverse to each other. |
| `Timestamps.NoOverflow` | crates/guardian-capture/src/request.rs:118-145 | No intermediate value of the conversion leaves its machine type for any 64-bit count of seconds, and both conversions to 32 bits take the value they are given. |
| `Timestamps.RenderedFields` | crates/guardian-core/src/identifiers.rs:254-295 | A rendered date and time has the validator's layout, and the validator reads back the same six fields. |
| `Timestamps.StringOrderIsTimeOrder` | crates/guardian-local-repository/src/inventory.rs:27-32 | On valid timestamps the byte order of the text is the order of the instants. |
| `Envelope.AcceptsExactlyTheEnvelopes` | crates/guardian-encryption/src/lib.rs:103-171 | Decryption yields a plaintext if and only if the bytes are a header and the frames of some chunking of it, numbered from 0 and closed by one empty final frame, all sealed under this associated data; for both decoders. |
| `Envelope.FrameAadBinds` | crates/guardian-encryption/src/lib.rs:273-279 | The associated data of a frame determines the caller's associated data, the index and the final flag. |
| `Envelope.ChunkNonceBinds` | crates/guardian-encryption/src/lib.rs:267-271 | The nonce of a frame determines its index and the first eight bytes of the base nonce, and only those. |
| `Envelope.OtherAssociatedDataIsRefused` | crates/guardian-encryption/src/lib.rs:103-132 | An envelope made under one associated data is refused by both decoders under any other, for every lawful cipher that seals differently under the two first frames' associated data. |
| `Envelope.BindingCiphersExist` | crates/guardian-encryption/src/lib.rs:207-225 | A lawful cipher that does so exists for any two associated data. |
| `Envelope.DecodeErrors` | crates/guardian-encryption/src/lib.rs:103-171 | Which error a refused input gives: another magic or version, more than 2^32 well-formed data frames, or anything else. |
| `Envelope.EnvelopeRoundTrip` | crates/guardian-encryption/src/lib.rs:103-132 | Every chunking decrypts to the same plaintext; another expected nonce is refused. |
| `Envelope.DecodesItsFrames` | crates/guardian-encryption/src/lib.rs:134-171 | Decoding inverts framing from any starting index. |
| `Envelope.AcceptedIsFramed` | crates/guardian-encryption/src/lib.rs:134-171 | Every accepted byte string is the framing of some chunking. |
| `Envelope.AcceptedStreamsArePrefixFree` | crates/guardian-encryption/src/lib.rs:143-170 | No proper prefix and no proper extension of an accepted stream is accepted. |
| `Envelope.NoncesAreDistinct` | crates/guardian-encryption/src/lib.rs:267-271 | No two frames of one call share a nonce. |
| `Envelope.EnvelopeLength` | crates/guardian-encryption/src/lib.rs:177-205 | An envelope starts with the format's nine bytes and the nonce, and is 42 bytes plus the plaintext plus 21 per chunk, so 95 for a wrapped key, and within the load limit for the largest vault secret. |
| `Envelope.LawfulCiphersExist` | crates/guardian-encryption/src/lib.rs:207-225 | The assumed cipher laws can be met, by a cipher whose tag depends on the associated data. |
| `EnvelopeStreams.EncryptReaderTo` | crates/guardian-encryption/src/lib.rs:53-101 | For every read schedule the output is the envelope of exactly the pieces read; a failing read is always reported; on working streams it fails exactly from 2^32 pieces on. |
| `EnvelopeStreams.DecryptReaderTo` | crates/guardian-encryption/src/lib.rs:103-122 | The streaming decoder agrees with the decoding function, in its result, its error and the bytes it writes. |
| `EnvelopeStreams.DecryptFramesTo` | crates/guardian-encryption/src/lib.rs:134-171 | So does its frame loop, from the first frame to the check that nothing follows the final one. |
| `EnvelopeStreams.WriteFrame` | crates/guardian-encryption/src/lib.rs:177-205 | A frame is flag, big-endian length and sealed chunk. |
| `EnvelopeStreams.ReadFrameFrom` | crates/guardian-encryption/src/lib.rs:243-265 | A frame is read exactly when a well-formed one is at the front of the input, and nothing after it is consumed. |
| `Staging.BackupStorage.Begin` | crates/guardian-local-repository/src/core_adapter.rs:44-58 | Opens a run exactly when none is open, its directory is new and no step fails; a failure opens nothing. |
| `Staging.BackupStorage.Reserve` | crates/guardian-local-repository/src/core_adapter.rs:60-70 | A destination is handed out exactly inside the payload directory of an open run, where it is free and no step fails. |
| `Staging.BackupStorage.RegisterPayload` | crates/guardian-local-repository/src/staging.rs:96-144 | Every payload key is recorded with the run before it is used, so that no later failure can lose track of it; registering succeeds exactly when the payload is there and no step fails. |
| `Staging.BackupStorage.RevokePending` | crates/guardian-local-repository/src/staging.rs:41-47 | A delete is issued for every recorded key. |
| `Staging.BackupStorage.Quarantine` | crates/guardian-local-repository/src/repository.rs:208-223 | A run moves as a whole and never over another one. |
| `Staging.BackupStorage.Discard` | crates/guardian-local-repository/src/staging.rs:27-39 | Whatever fails, no run stays open; it succeeds exactly when no step fails and the run can be quarantined, and then nothing is under `staging/`, the quarantined directory holds no payload and all keys are revoked. |
| `Staging.BackupStorage.Seal` | crates/guardian-local-repository/src/staging.rs:146-161 | Exactly this run is published or nothing is; a run that was not published is quarantined with its keys revoked; where nothing else fails, a sealable run is published in any case, and a failing sync after the rename alone turns success into an error with every key of the published backup revoked. |
| `Staging.BackupStorage.SealInner` | crates/guardian-local-repository/src/staging.rs:163-223 | Publication succeeds exactly with the run's own manifest listing exactly its payload files, a fresh backup id and no failing step; the sync after the rename decides only what is reported. |
| `CaptureUseCases.CaptureFilesystem` | crates/guardian-core/src/capture.rs:50-108 | Success leaves the run open with exactly its payload and nothing logged; every failure after `begin` is logged once and leaves nothing behind; each failing port has its own error and audit code; a request is refused exactly for no roots, more than 32, or an invalid one. |
| `CaptureUseCases.Attempt` | crates/guardian-core/src/capture.rs:57-94 | The four port calls stop at the first failure and name the error and audit code it is reported with; they succeed exactly when the path is free under the payload directory and nothing fails. |
| `CaptureUseCases.BackupFilesystem` | crates/guardian-core/src/capture.rs:119-161 | For every pattern of port failures the run ends sealed, cleaned up, or published with its keys revoked; success means that nothing failed, and if nothing fails a request that can be met succeeds; a published backup holds exactly the captured payload; which ports fail determines the error, the audit code and whether the backup is published. |
| `CaptureUseCases.CaptureDatabaseWithinStaging` | crates/guardian-core/src/embedded_database.rs:68-109 | The same for a second payload in an open run, except that an invalid path is returned without ending the run. |
| `CaptureUseCases.BackupDatabase` | crates/guardian-core/src/embedded_database.rs:134-176 | For every pattern of port failures the database run ends as a filesystem run does, with the database's own error and audit codes, and a published backup holds exactly the database payload. |
| `CaptureUseCases.BackupCombined` | crates/guardian-capture/src/lib.rs:129-235 | With a valid database path the combined run ends as the others do, and a published backup holds exactly the two payloads; with an invalid path, and nothing else failing, it reports that error and leaves the run open with the filesystem payload staged, nothing logged and no key revoked. |
| `CaptureUseCases.FinishBackup` | crates/guardian-capture/src/lib.rs:191-235 | Adding the payloads and sealing either publishes this run or cleans it up, with one log entry for a failure. |
| `CaptureUseCases.Fail` | crates/guardian-core/src/capture.rs:96-108 | A failing step is logged, and the run is gone with its keys revoked when discarding works. |
| `Sealing.StagedBackup.Seal` | crates/guardian-local-repository/src/staging.rs:163-209 | Sealing succeeds exactly when no write fails and the stated conditions on manifest, payload tree and signer hold; the directory it leaves then loads with the matching verifier as that same manifest, which meets every rule and lists exactly the payload files; where the conditions fail nothing is written. |
| `Sealing.SealRun` | crates/guardian-local-repository/src/staging.rs:163-209 | On any directory tree, whatever is sealed meets the rules and lists exactly the files below its payload directory, each with its length and digest. |
| `Sealing.StagedBackup.PrepareAndSign` | crates/guardian-local-repository/src/staging.rs:163-184 | The checks, the state change of the draft and the signature over its canonical bytes come before the first write. |
| `Sealing.StagedBackup.PublishMetadata` | crates/guardian-local-repository/src/staging.rs:186-209 | Manifest, signature file and report are written in this order, and success means that no write failed. |
| `Sealing.WalkSeesTheTree` | crates/guardian-local-repository/src/verification.rs:64-101 | The walk succeeds exactly on trees of directories and regular files at most 64 levels deep, and then its result is exactly the files anywhere below, by path and content. |
| `Sealing.PayloadCheckIsExact` | crates/guardian-local-repository/src/verification.rs:28-54 | The payload check passes if and only if there is a payload directory with no link or special entry anywhere in it, every file below it is listed, and every listed path is there with its length and digest. |
| `Sealing.LoadsExactly` | crates/guardian-local-repository/src/verification.rs:20-101 | A backup directory loads as a manifest if and only if it is named by its backup id, the manifest file is the canonical form of a sealed manifest that meets every rule, it is signed, and the payload holds exactly what it lists. |
| `Sealing.ValidityMeans` | crates/guardian-core/src/manifest.rs:89-154 | The validations before and after sealing are one set of rules with the two states of the seal. |
| `Sealing.LoadingPinsThePayloads` | crates/guardian-local-repository/src/verification.rs:28-101 | Two directories that load as the same manifest have the same payload files with the same lengths and digests; they hold the same bytes unless two contents with one digest have been found. |
| `Sealing.ManifestDraft.AddPayload` | crates/guardian-core/src/manifest.rs:60-69 | A payload is refused exactly when its path is listed; paths stay distinct and the state is unchanged on refusal. |
| `Sealing.ManifestDraft.PrepareForSeal` | crates/guardian-core/src/manifest.rs:71-87 | Succeeds exactly for a valid manifest and valid labels (1 to 128 bytes of UTF-8 without control characters), yields a valid sealed one, and otherwise changes nothing. |
| `Sealing.HexRoundTrip` | crates/guardian-local-repository/src/signature_file.rs:14-35 | The signature file's decoder inverts its hex writer on all byte strings. |
| `Sealing.DecodesPairs` | crates/guardian-local-repository/src/signature_file.rs:14-35 | The decoder accepts exactly the texts of digit pairs of either case (a plus sign may stand for the first digit), each pair being one byte. |
| `Sealing.DigestsAreHex` | crates/guardian-core/src/retention.rs:145-153 | The plan identifiers are exactly the hex texts of 32-byte digests. |
| `Cutover.OriginalIsNeverLost` | crates/guardian-ssh/src/push.rs:508-554 | At every point of every run, with any failing command and any signals outside one window, the original tree is at exactly one of `root` and `rollback` and not under `staging`. |
| `Cutover.SafeExactlyOutsideWindow` | crates/guardian-ssh/src/push.rs:548-553 | Wherever a run stands, a signal leaves the original safe in all continuations if and only if it does not fall between the tests of `rollback_cutover` and the move they guard. |
| `Cutover.SignalInWindowMisplacesOriginal` | crates/guardian-ssh/src/push.rs:548-553 | Every signal in that window, followed by commands that work, puts the original inside `staging/.failed`. |
| `Cutover.OneSignalCanMisplaceOriginal` | crates/guardian-ssh/src/push.rs:548-553 | With containers a single signal does so, from the start of the script. |
| `Cutover.TwoSignalsCanDestroyOriginal` | crates/guardian-ssh/src/push.rs:548-553 | Without containers two signals end in exit 0 with the original removed. |
| `Cutover.ExitCodes` | crates/guardian-ssh/src/push.rs:84-91 | Without signals: 42 means `root` is the original, 43 that it is still at `rollback`, 0 that the replacement is in; 42 and 43 occur only after a healthy probe, and 0 with containers only after twelve failed ones; what 1 means is `CutoverScript.FailureMovesBack`. |
| `Cutover.RunKeepsInv` | crates/guardian-ssh/src/push.rs:508-554 | The invariant over files, script position and nested rollback calls holds along every such run. |
| `Cutover.TrapThenGoesOn` | crates/guardian-ssh/src/push.rs:548-554 | An undisturbed trap after the swap puts the original back, and the script then goes on at the command it was at. |
| `Cutover.TrapWhileUntouched` | crates/guardian-ssh/src/push.rs:548-554 | Before the swap an undisturbed trap changes nothing. |
| `Cutover.TrapWhileSetAside` | crates/guardian-ssh/src/push.rs:548-554 | Nor does it while the original is set aside and nothing is at `root`. |
| `Cutover.SignalAfterTrapKills` | crates/guardian-ssh/src/push.rs:548-554 | Once the trap is cleared a signal ends the script before it removes anything. |
| `CutoverScript.MachineIsScript` | crates/guardian-ssh/src/push.rs:508-554 | The machine runs the script read as a structured program: whatever lies at the places it starts from, every run without signals exits when the program does, with the same code, the same trees and the same external commands in the same order. |
| `CutoverScript.FailureMovesBack` | crates/guardian-ssh/src/push.rs:551-552 | A run that exits 1 has the original at `root`, unless the `mv` that puts it back failed. |
| `CutoverScript.ContainersAreRestarted` | crates/guardian-ssh/src/push.rs:508-554 | The containers are left stopped without an attempt to start them exactly when the script exits 43 or its first `stop` failed. |
| `Archive.Extraction.ExtractAll` | crates/guardian-archive/src/lib.rs:161-193 | Extraction succeeds if and only if inspection would, no path repeats, no later path is a proper ancestor of an earlier one and earlier ancestors are directories; the tree is then exactly the ancestor closure of the entries, with the file sizes, and the counts are those of inspection. |
| `Archive.Extraction.ExtractEntry` | crates/guardian-archive/src/lib.rs:195-258 | One entry is placed exactly when it is allowed, within the limit and has room. |
| `Archive.Extraction.EnsureParentDirectories` | crates/guardian-archive/src/lib.rs:260-275 | Succeeds exactly when no file is on the way, and adds just the missing directories. |
| `Archive.RoomMeansCompatible` | crates/guardian-archive/src/lib.rs:195-275 | There is room in the extracted tree exactly when the entry is compatible with every earlier one. |
| `Archive.PlacedIsTree` | crates/guardian-archive/src/lib.rs:195-258 | Placing an entry extends the ancestor closure by that entry. |
| `Archive.InspectTar` | crates/guardian-archive/src/lib.rs:293-318 | Inspection succeeds exactly within the limits and counts every entry. |
| `Archive.CountsEachKind` | crates/guardian-archive/src/lib.rs:293-318 | The counts are the numbers of entries, of regular files and of directories. |
| `Archive.ListTarEntries` | crates/guardian-archive/src/lib.rs:320-351 | A page is the requested slice of the archive with the total and the next offset, which is there exactly when entries remain, or an error exactly where inspection fails. |
| `Archive.PagesAreComplete` | crates/guardian-archive/src/lib.rs:320-351 | Following offsets from any point ends and yields the rest of the archive, each entry once, in order. |
| `ReadBudget.BudgetReader.Read` | crates/guardian-archive/src/lib.rs:504-531 | A read delivers what the source gave exactly when that fits the budget, and charges it. |
| `ReadBudget.BudgetReader.Drain` | crates/guardian-archive/src/lib.rs:379-394 | Draining succeeds exactly when the stream fits the budget, with every byte counted. |
| `ReadBudget.BudgetIsExact` | crates/guardian-archive/src/lib.rs:504-531 | For any buffer sizes and short reads, a caller that stops at the first error reaches the end only if the stream fits, then with all bytes counted, and an error only if it does not; consumed plus remaining never changes. |
| `ReadBudget.ReadingEnds` | crates/guardian-archive/src/lib.rs:504-531 | Every such caller reaches one of the two. |
| `ReadBudget.NestedBudgetsAreOne` | crates/guardian-archive/src/lib.rs:482-502 | Over whole runs, two equal nested budgets allow the same reads and end the same as one. |
| `ReadBudget.RetryAfterError` | crates/guardian-archive/src/lib.rs:521-526 | The error is not sticky: a retry can see the end of the stream exactly when the stream was one byte too long. |
| `Enrollment.SigningIdentityManager.EnrollOrLoad` | crates/guardian-signing/src/enrollment.rs:34-47 | Interrupted anywhere, the call is a step of a history that keeps an existing identity and creates at most one credential; success leaves it committed and reports it as loaded, recovered or enrolled according to what was there; a failed call is reported as such, and if none fails it succeeds from every state an interruption can leave. |
| `Enrollment.SigningIdentityManager.LoadCommitted` | crates/guardian-signing/src/enrollment.rs:85-101 | A committed identity is reported unchanged and a left-over intent removed; a missing or different key is its own error and changes nothing. |
| `Enrollment.SigningIdentityManager.CreateIntent` | crates/guardian-signing/src/enrollment.rs:144-155 | The credential id is on disk before anything exists under it. |
| `Enrollment.SigningIdentityManager.FinishEnrollment` | crates/guardian-signing/src/enrollment.rs:157-183 | A pending intent ends in the same identity whether or not its credential had been created, reported as recovered or as enrolled. |
| `Enrollment.SigningIdentityManager.EnrollExclusive` | crates/guardian-signing/src/lib.rs:37-53 | A credential is created only under an id that holds none, and the key reported is the one stored. |
| `Enrollment.SigningIdentityManager.Status` | crates/guardian-signing/src/enrollment.rs:49-61 | Reports the stage of the enrolment and the key id of the identity, exactly, or what is wrong with it; writes no credential, intent or configuration. |
| `Enrollment.SigningIdentityManager.LoadReady` | crates/guardian-signing/src/enrollment.rs:63-68 | Succeeds on a committed identity only, with the exact error otherwise, and writes nothing. |
| `Enrollment.OneIdentityForever` | crates/guardian-signing/src/enrollment.rs:34-183 | Over every sequence of calls interrupted at any step, all that succeed report the same key id, and exactly one credential was ever created. |
| `Enrollment.IdentityIsStable` | crates/guardian-signing/src/enrollment.rs:34-183 | An identity, once its credential exists, never changes. |
| `Vault.EncryptedFileVault.Init` | crates/guardian-vault/src/init.rs:18-31 | A published master key is kept by every call, finished or interrupted; if no step fails the outcome is determined by the two files, and a step that fails is reported; Created is reported only where there was no key. |
| `Vault.EncryptedFileVault.RecoverOrReject` | crates/guardian-vault/src/init.rs:38-47 | A missing canary is written for the existing key, a mismatching one is rejected, an unreadable one is an error; the key is never touched. |
| `Vault.EncryptedFileVault.CreateFresh` | crates/guardian-vault/src/init.rs:49-54 | The key is published before its canary: the files are as before, with the key, or with both. |
| `Vault.MasterKeyIsStable` | crates/guardian-vault/src/init.rs:18-54 | Over every sequence of calls a published master key never changes. |
| `Vault.CreatedAtMostOnce` | crates/guardian-vault/src/init.rs:18-54 | Created is reported at most once. |
| `CaptureRoots.NormalizeRoots` | crates/guardian-core/src/capture_selection.rs:262-284 | The result is exactly the set of cover-minimal inputs, each once, in order; every input is covered by a kept root; every input, as often as it is given, is either kept or the path of one warning; each warning names a kept root that covers its path. |
| `CaptureRoots.CoversIsSegmentPrefix` | crates/guardian-core/src/capture_selection.rs:300-307 | On valid paths the text test is segment-prefix. |
| `CaptureRoots.CoversIsPartialOrder` | crates/guardian-core/src/capture_selection.rs:300-307 | Covering is reflexive, antisymmetric and transitive on valid paths. |
| `CaptureRoots.NormalFormIsCanonical` | crates/guardian-core/src/capture_selection.rs:262-284 | The result does not depend on input order or repetition. |
| `CaptureRoots.NormalFormIsIdempotent` | crates/guardian-core/src/capture_selection.rs:262-284 | Normalising the result again changes nothing. |
| `CaptureRoots.ExactlyOneKeptRoot` | crates/guardian-core/src/capture_selection.rs:262-284 | No input is covered by two kept roots. |
| `RemotePaths.SegmentsAreInjective` | crates/guardian-core/src/identifiers.rs:170-184 | A valid path is determined by its segments. |
| `RemotePaths.ValidPathsGoThroughNames` | crates/guardian-core/src/identifiers.rs:170-184 | The valid paths are the root directory and, within 1024 bytes of UTF-8, the paths through proper names. |
| `Ordering.Utf8WidthIsLeast` | crates/guardian-core/src/identifiers.rs:170-176 | The byte length behind these limits counts, for each character, the fewest bytes whose UTF-8 payload bits hold its code point. |
| `Broker.AtMostOnce` | crates/guardian-askpass/src/lib.rs:199-264 | Over every interleaving of accept loop, workers, expiry and drop, the password is granted at most once and only for the exact token; the counter is live workers plus the one being dispatched, and never more than eight workers live. |
| `Broker.RunKeepsInv` | crates/guardian-askpass/src/lib.rs:199-264 | The invariant behind this holds in every reachable state. |
| `Broker.OnlyTheTokenConsumes` | crates/guardian-askpass/src/lib.rs:247-252 | Nothing but a worker with the right token uses the password up. |
| `Broker.ServesAfterStopExactlyWhenUnsettled` | crates/guardian-askpass/src/lib.rs:179-188 | After a drop the password can still be granted if and only if, at that moment, it is unused and some worker has passed the stop test and not seen expiry. |
| `Broker.DropCanOvertakeAWorker` | crates/guardian-askpass/src/lib.rs:247-252 | That situation arises from one ordinary connection. |
| `Broker.ConstantTimeEqualIsEquality` | crates/guardian-askpass/src/lib.rs:99-106 | The folded comparison is equality. |
| `Broker.ClosedLoopEnds` | crates/guardian-askpass/src/lib.rs:199-207 | Once the password is served, the broker dropped or its lifetime over, every step of the accept loop brings it nearer its end, whatever else happens in between. |
| `Broker.OpenLoopGoesOn` | crates/guardian-askpass/src/lib.rs:119-124 | Until then the loop goes on accepting. |
| `Broker.NinthIsTurnedAway` | crates/guardian-askpass/src/lib.rs:209-223 | A connection beyond the eighth, or one whose thread cannot start, is turned away and uncounted; any other gets a worker of its own. |
| `Broker.TokenIsServed` | crates/guardian-askpass/src/lib.rs:225-264 | A connection with the right token gets the password if nothing closes the broker before its tests. |
| `ShellQuote.QuotingRoundTrip` | crates/guardian-ssh/src/target.rs:91-100 | Tokenising the space-joined quoted strings under POSIX quoting (Shell Command Language, sections 2.2.2 and 2.2.3) yields exactly the list that was quoted. |
| `ShellQuote.CaptureCommandNamesTheRoots` | crates/guardian-ssh/src/target.rs:91-100 | The whole capture command splits into its fixed words followed by exactly the roots. |
| `ShellQuote.EscapedReadsBack` | crates/guardian-ssh/src/target.rs:125-127 | Inside quotes, escaping any string reads back as that string and the shell stays inside the quotes. |
| `RemoteBrowser.BrowsingIsComplete` | crates/guardian-ssh/src/remote_browser.rs:69-96 | For an unchanged directory, listed afresh and in any order by every request, following cursors ends within one page per entry and the pages together are the listing in ascending byte order of the names, each record once. |
| `RemoteBrowser.BrowsingFrom` | crates/guardian-ssh/src/remote_browser.rs:69-96 | The same from any cursor: the rest of the listing follows. |
| `RemoteBrowser.ListingOrderIsIrrelevant` | crates/guardian-ssh/src/remote_browser.rs:77-78 | With distinct names, every order in which the directory is listed sorts to the same listing, and so has the same digest. |
| `RemoteBrowser.CursorRoundTrip` | crates/guardian-ssh/src/remote_browser.rs:118-136 | A cursor parses back to its offset for its own digest and is refused for any other. |
| `RemoteBrowser.StaleCursorIsRefused` | crates/guardian-ssh/src/remote_browser.rs:118-136 | A cursor of a listing with another digest is refused. |
| `RemoteBrowser.CursorsAreExact` | crates/guardian-ssh/src/remote_browser.rs:118-136 | Nothing is a cursor but `v1`, a number and the listing's own digest, joined by underscores. |
| `RemoteBrowser.NumbersAreExact` | crates/guardian-ssh/src/remote_browser.rs:118-136 | A number is a non-empty run of digits, perhaps after a plus sign, that fits 64 bits. |

## Left out

- Desktop application, command line, MCP server, profile and plan stores, plan confirmation beyond the retention phrase: single-branch validation and plumbing.
- Restore, deploy and recovery bundles, abandoned-run recovery, and the repository's credential and audit submodules: not part of this model.
- Process spawning, timeouts, cancellation, SSH host keys, keyring, permissions and ACLs, lock files: foreign calls, modelled as steps that may fail or not at all; operations of one repository run one at a time, as its lock enforces.
- AES-GCM, Ed25519, SHA-256 and Argon2: abstract functions; of the cipher only that opening inverts sealing and that a tag adds 16 bytes; digests and plan ids are given values, and the 64-digit form of a plan id is its type.
- JSON, zstd, tar and base64 bytes: lawful encode/decode pairs, parsed entries, and a number of expanded bytes.
- Docker and database inventory parsing, selection warnings other than covered paths.
- Metadata of the repository itself (`repository.json` and its temporary file) and `Path::exists` answering wrongly on a failing `stat` or a dangling link.
- Durability of data that was written but not synced before a power loss: a completed step is taken to survive.
- Other processes changing the repository or the remote tree between two steps of the program; `mv` within one file system is an atomic rename.
- RetentionHistory.HistoryRefines: leaves out a second plan that is itself interrupted beside an open transaction, so that two are open at once; a second plan that completes is covered, `BesideOpenTransaction` says exactly when it does harm, and `RetentionRecovery` covers recovery from several open plans in which no call fails.
- RetentionHistory.PublishKeepsShape: publishing and quarantining are effects on the directory tree here; `Staging` models the calls that cause them, over its own part of the repository.
- RetentionJournal.Repository.ReconcileRetention: of a disk with several open plans, only a recovery in which no call fails is characterised, not one that is itself interrupted; plans that share a backup are left out beyond the stranding case.
- Staging.BackupStorage.RegisterPayload: records which keys and files a payload leaves, not the encrypted bytes, which `EnvelopeStreams` covers.
- CaptureUseCases.BackupCombined: the checks before the first port call other than the matching of the two requests (profile, preflight, disk space) are left out; they return before anything is opened.
- CaptureUseCases.CaptureFilesystem: a failed `begin` may leave the run's new, empty directory under `staging/`, as the code does; nothing is opened or logged then.
- Sealing.StagedBackup.Seal: the payload tree is a value that does not change between verification and publication.
- EnvelopeStreams.EncryptReaderTo: a failing write leaves an unspecified prefix of the output; the code then returns an error and the caller removes the file.
- EnvelopeStreams.DecryptReaderTo: plaintext of earlier frames has been written when a later frame is refused, as in the code.
- Enrollment.SigningIdentityManager.EnrollOrLoad: a freshly drawn credential id is taken to be unused in the secret store.
- Enrollment.SigningIdentityManager.EnrollExclusive: another process storing a key under the same fresh credential id is left out, so the comparison of the stored key never fails here.
- Enrollment.OneIdentityForever: metadata files are written atomically and hold what was written; damaged files are not modelled.
- Vault.EncryptedFileVault.Init: the exclusive creation of the key file is one step, since the code writes and renames it.
- Archive.Extraction.ExtractAll: a failing disk is left out, so that success can be characterised; the destination starts empty; the kinds of error are not told apart, and neither is the removal of the destination after one.
- Cutover.ExitCodes: a run that is killed by a signal after the trap is cleared has no exit code of its own.
- Broker.AtMostOnce: worker panics, which would leave the counter too high, are left out.
- RemoteBrowser.BrowsingIsComplete: works on parsed records; the output size limit, record parsing and the final page validation are left out.
- ShellQuote.QuotingRoundTrip: NUL cannot occur in a command line; expansions cannot occur, since every character outside quotes is a literal or a space.
