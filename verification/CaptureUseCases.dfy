/** The capture and backup use cases: how each drives the storage port, and what it leaves
    behind when any step fails. */
module CaptureUseCases {
  import opened Wrappers
  import opened Ordering
  import opened Staging
  import opened RemotePaths

  datatype RequestError = InvalidRoots | InvalidDatabasePath | DatabaseRequestMismatch
  datatype UseCaseError =
    | BadRequest(reason: RequestError) | CaptureFailed | ArchiveRejected | StorageFailed | ManifestFailed

  datatype AuditCode = StorageCode | TransportCode | ArchivePolicyCode | DatabasePolicyCode

  class AuditLog {
    var failures: seq<(RunId, AuditCode)>

    method CaptureFailedEntry(run: RunId, code: AuditCode)
      modifies this
      ensures failures == old(failures) + [(run, code)]
    {
      failures := failures + [(run, code)];
    }
  }

  /******* Requests *******/

  datatype FilesystemRequest = FilesystemRequest(runId: RunId, profileId: string, roots: seq<string>, path: PayloadPath)

  predicate ValidFilesystemRequest(r: FilesystemRequest) {
    1 <= |r.roots| <= 32 && forall i | 0 <= i < |r.roots| :: ValidRemotePath(r.roots[i])
  }

  datatype DatabaseRequest = DatabaseRequest(runId: RunId, profileId: string, databasePath: string, path: PayloadPath)

  predicate ValidDatabaseRequest(r: DatabaseRequest) {
    r.databasePath != "/" && ValidRemotePath(r.databasePath)
  }

  /******* What a run may leave behind *******/

  /** The storage fields a use case can change, as a value. */
  datatype Snapshot = Snapshot(
    staging: map<RunId, RunDirectory>, backups: map<BackupId, RunDirectory>, quarantine: map<RunId, RunDirectory>,
    open: Option<StagingBackup>, recorded: set<CredentialId>, revoked: set<CredentialId>)

  ghost function Snap(s: BackupStorage): Snapshot
    reads s
  {
    Snapshot(s.staging, s.backups, s.quarantine, s.open, s.recorded, s.revoked)
  }

  /** Nothing of the run is under `staging/`, nothing new is under `backups/`, and a delete was
      issued for every payload key the run recorded. */
  ghost predicate CleanedUp(a: Snapshot, b: Snapshot, run: RunId) {
    && run !in b.staging && b.backups == a.backups
    && b.recorded - a.recorded <= b.revoked
    && b.open.None?
  }

  /** Exactly one failure of `run` was recorded. */
  ghost predicate LoggedOnce(before: seq<(RunId, AuditCode)>, after: seq<(RunId, AuditCode)>, run: RunId) {
    |after| == |before| + 1 && after[..|before|] == before && after[|before|].0 == run
  }

  /** The error a caller sees and the code that is logged. */
  datatype Report = Report(error: UseCaseError, code: AuditCode)

  /** Which report each failing port of a capture makes; the first that fails decides. */
  function CaptureReport(broken: set<Port>, policyCode: AuditCode): Option<Report> {
    if ReservePort in broken then Some(Report(StorageFailed, StorageCode))
    else if CapturePort in broken then Some(Report(CaptureFailed, TransportCode))
    else if InspectPort in broken then Some(Report(ArchiveRejected, policyCode))
    else if RegisterPort in broken then Some(Report(StorageFailed, StorageCode))
    else None
  }

  lemma OtherPorts(broken: set<Port>, policyCode: AuditCode)
    ensures broken <= {SealPort, SyncPort} <==> BeginPort !in broken && CaptureReport(broken, policyCode) == None
    ensures broken <= {SyncPort} <==> broken <= {SealPort, SyncPort} && SealPort !in broken
  {
    forall p | p in broken && BeginPort !in broken && CaptureReport(broken, policyCode) == None ensures p in {SealPort, SyncPort} {
      match p
      case BeginPort | ReservePort | CapturePort | InspectPort | RegisterPort =>
      case SealPort | SyncPort =>
    }
  }

  /** ... and each failing port of a whole backup, after `begin`. */
  function BackupReport(broken: set<Port>, policyCode: AuditCode): Option<Report> {
    if CaptureReport(broken, policyCode) != None then CaptureReport(broken, policyCode)
    else if SealPort in broken || SyncPort in broken then Some(Report(StorageFailed, StorageCode))
    else None
  }

  /** `r` and the log are as `report` says. */
  ghost predicate IsReported(
    report: Option<Report>, run: RunId, before: seq<(RunId, AuditCode)>, r: Option<UseCaseError>, after: seq<(RunId, AuditCode)>)
  {
    match report
    case None => r == None && after == before
    case Some(what) => r == Some(what.error) && after == before + [(run, what.code)]
  }

  /** A capture reports one of its three kinds of failure, unless discarding failed as well. */
  ghost predicate IsCaptureFailure(
    policyCode: AuditCode, run: RunId, before: seq<(RunId, AuditCode)>, r: UseCaseError, after: seq<(RunId, AuditCode)>,
    discarded: bool)
  {
    || (after == before + [(run, StorageCode)] && r == StorageFailed)
    || (after == before + [(run, TransportCode)] && (r == CaptureFailed || (!discarded && r == StorageFailed)))
    || (after == before + [(run, policyCode)] && (r == ArchiveRejected || (!discarded && r == StorageFailed)))
  }

  /** The run is open in `b`, its directory is there, and everything it recorded is pending. */
  ghost predicate IsOpen(a: Snapshot, b: Snapshot, run: RunId) {
    && b.open.Some? && b.open.value.runId == run && run in b.staging
    && b.backups == a.backups && b.quarantine == a.quarantine && b.revoked == a.revoked
    && b.staging - {run} == a.staging - {run}
    && b.recorded == a.recorded + SetOf(b.open.value.credentials)
  }

  /** The run failed before `begin` succeeded. */
  ghost predicate NeverBegan(a: Snapshot, b: Snapshot, run: RunId) {
    && b.backups == a.backups && b.quarantine == a.quarantine && b.open == a.open
    && b.recorded == a.recorded && b.revoked == a.revoked
    && (b.staging == a.staging || (run !in a.staging && b.staging == a.staging[run := RunDirectory({})]))
  }

  /******* Steps shared by the use cases *******/

  /** Records the failure and discards the open run. */
  method Fail(storage: BackupStorage, audit: AuditLog, run: RunId, code: AuditCode, error: UseCaseError,
              ghost a: Snapshot)
    returns (e: UseCaseError)
    modifies storage, audit
    ensures audit.failures == old(audit.failures) + [(run, code)]
    ensures IsOpen(a, old(Snap(storage)), run) && storage.dependable && run !in a.quarantine ==>
      CleanedUp(a, Snap(storage), run) && e == error
    ensures storage.backups == old(storage.backups) && storage.open.None?
    ensures e == error || e == StorageFailed
    ensures storage.faults >= old(storage.faults)
  {
    audit.CaptureFailedEntry(run, code);
    var o := storage.Discard();
    e := if o.Ok? then error else StorageFailed;
  }

  /** The four port calls of a capture, up to the first that fails; the result is what that failure
      is to be reported as. */
  method Attempt(storage: BackupStorage, run: RunId, path: PayloadPath, policyCode: AuditCode, ghost a: Snapshot)
    returns (failed: Option<Report>)
    modifies storage
    ensures storage.backups == old(storage.backups) && storage.faults >= old(storage.faults)
    ensures IsOpen(a, old(Snap(storage)), run) ==>
      && IsOpen(a, Snap(storage), run)
      && (failed.None? <==>
            storage.faults == old(storage.faults) && "payload/" <= path && path !in old(storage.staging)[run].payload)
      && (failed.None? ==>
            storage.staging[run].payload == old(storage.staging)[run].payload + {path} && path in storage.staging[run].payload)
      && (storage.calm && "payload/" <= path && path !in old(storage.staging)[run].payload ==>
            failed == CaptureReport(storage.broken, policyCode))
    ensures CaptureReport(storage.broken, policyCode) != None ==> failed.Some?
    ensures failed in {None, Some(Report(StorageFailed, StorageCode)), Some(Report(CaptureFailed, TransportCode)),
                       Some(Report(ArchiveRejected, policyCode))}
  {
    var o := storage.Reserve(path);
    if o.Rejected? {
      return Some(Report(StorageFailed, StorageCode));
    }
    var ok := storage.Receive(path);
    if !ok {
      return Some(Report(CaptureFailed, TransportCode));
    }
    var refused := storage.Fault(InspectPort);
    if refused {
      return Some(Report(ArchiveRejected, policyCode));
    }
    ghost var before := storage.open;
    o := storage.RegisterPayload(path);
    if before.Some? {
      CredentialsGrow(before.value.credentials, storage.open.value.credentials);
    }
    failed := if o.Rejected? then Some(Report(StorageFailed, StorageCode)) else None;
  }

  /** Captures one payload into the already open run. */
  method CaptureIntoStaging(
    storage: BackupStorage, audit: AuditLog, run: RunId, path: PayloadPath, policyCode: AuditCode, ghost a: Snapshot)
    returns (r: Option<UseCaseError>)
    modifies storage, audit
    ensures storage.backups == old(storage.backups)
    ensures IsOpen(a, old(Snap(storage)), run) ==>
      && (r.None? ==>
            && IsOpen(a, Snap(storage), run) && path in storage.staging[run].payload
            && storage.staging[run].payload == old(storage.staging)[run].payload + {path})
      && (r.None? <== storage.faults == old(storage.faults) && "payload/" <= path && path !in old(storage.staging)[run].payload)
      && (r.Some? && storage.dependable && run !in a.quarantine ==> CleanedUp(a, Snap(storage), run))
      && (r.None? ==> storage.faults == old(storage.faults))
    ensures storage.faults >= old(storage.faults)
    ensures if r.None? then audit.failures == old(audit.failures)
            else LoggedOnce(old(audit.failures), audit.failures, run)
    ensures r.Some? ==> !r.value.BadRequest?
    ensures IsOpen(a, old(Snap(storage)), run) && r.Some? ==>
      IsCaptureFailure(policyCode, run, old(audit.failures), r.value, audit.failures, storage.dependable && run !in a.quarantine)
    ensures (&& storage.calm && storage.dependable && IsOpen(a, old(Snap(storage)), run) && run !in a.quarantine
             && "payload/" <= path && path !in old(storage.staging)[run].payload) ==>
      IsReported(CaptureReport(storage.broken, policyCode), run, old(audit.failures), r, audit.failures)
    ensures CaptureReport(storage.broken, policyCode) != None ==> r.Some?
    ensures (&& storage.calm && IsOpen(a, old(Snap(storage)), run) && "payload/" <= path
             && path !in old(storage.staging)[run].payload && CaptureReport(storage.broken, policyCode) == None) ==> r.None?
  {
    var failed := Attempt(storage, run, path, policyCode, a);
    if failed.Some? {
      var e := Fail(storage, audit, run, failed.value.code, failed.value.error, a);
      return Some(e);
    }
    r := None;
  }

  lemma SingletonSet<T>(x: T)
    ensures SetOf([x]) == {x}
  {
    assert [x][0] == x;
  }

  lemma CredentialsGrow(s: seq<CredentialId>, t: seq<CredentialId>)
    requires s <= t
    ensures SetOf(t) == SetOf(s) + SetOf(t[|s|..])
  {
    forall x | x in SetOf(t) ensures x in SetOf(s) + SetOf(t[|s|..]) {
      var i :| 0 <= i < |t| && t[i] == x;
      if i < |s| {
        assert s[i] == x;
      } else {
        assert t[|s|..][i - |s|] == x;
      }
    }
    forall x | x in SetOf(s) ensures x in SetOf(t) {
      var i :| 0 <= i < |s| && s[i] == x;
      assert t[i] == x;
    }
    forall x | x in SetOf(t[|s|..]) ensures x in SetOf(t) {
      var i :| 0 <= i < |t[|s|..]| && t[|s|..][i] == x;
      assert t[|s| + i] == x;
    }
  }

  /** Adding a payload to a manifest refuses a path it already lists. */
  function AddPayload(m: Manifest, path: PayloadPath): (r: Option<Manifest>)
    ensures r.None? <==> path in m.payloads
    ensures r.Some? ==> r.value == m.(payloads := m.payloads + [path])
  {
    if path in m.payloads then None else Some(m.(payloads := m.payloads + [path]))
  }

  /** Adding `paths` one by one to a list meets one that is on it already. */
  ghost predicate AddsTwice(listed: seq<PayloadPath>, paths: seq<PayloadPath>) {
    exists i :: 0 <= i < |paths| && paths[i] in listed + paths[..i]
  }

  method AddAll(manifest: Manifest, payloads: seq<PayloadPath>) returns (r: Option<Manifest>)
    ensures r.None? <==> AddsTwice(manifest.payloads, payloads)
    ensures r.Some? ==> r.value == manifest.(payloads := manifest.payloads + payloads)
  {
    var m := manifest;
    for i := 0 to |payloads|
      invariant m == manifest.(payloads := manifest.payloads + payloads[..i])
      invariant forall k | 0 <= k < i :: payloads[k] !in manifest.payloads + payloads[..k]
    {
      var added := AddPayload(m, payloads[i]);
      if added.None? {
        return None;
      }
      m := added.value;
    }
    assert payloads[..|payloads|] == payloads;
    r := Some(m);
  }

  /** The end of every backup: add the captured payloads to the manifest and seal. */
  method FinishBackup(
    storage: BackupStorage, audit: AuditLog, run: RunId, manifest: Manifest, payloads: seq<PayloadPath>,
    ghost a: Snapshot)
    returns (r: Option<UseCaseError>)
    modifies storage, audit
    ensures IsOpen(a, old(Snap(storage)), run) ==>
      && BackupEnded(a, old(Snap(storage)), Snap(storage), run, manifest, payloads, storage.dependable, r)
    ensures if r.None? then audit.failures == old(audit.failures)
            else LoggedOnce(old(audit.failures), audit.failures, run)
    ensures r.Some? ==> !r.value.BadRequest?
    ensures storage.faults >= old(storage.faults)
    ensures r.None? ==> storage.faults == old(storage.faults)
    ensures (&& storage.faults == old(storage.faults) && IsOpen(a, old(Snap(storage)), run) && CanFinish(a, run, manifest)
             && payloads != [] && SetOf(payloads) == old(storage.staging)[run].payload
             && (forall i, j | 0 <= i < j < |payloads| :: payloads[i] != payloads[j])) ==>
      r.None?
    ensures (&& storage.calm && IsOpen(a, old(Snap(storage)), run) && CanFinish(a, run, manifest)
             && payloads != [] && SetOf(payloads) == old(storage.staging)[run].payload
             && (forall i, j | 0 <= i < j < |payloads| :: payloads[i] != payloads[j]) && SealPort !in storage.broken) ==>
      PublishedBut(SyncPort in storage.broken, storage.backups, manifest, r)
    ensures r.Some? ==> audit.failures == old(audit.failures) + [(run, StorageCode)]
    ensures SealPort in storage.broken ==> r.Some? && storage.backups == old(storage.backups)
    ensures IsOpen(a, old(Snap(storage)), run) && storage.dependable && run !in a.quarantine ==>
      (r == Some(ManifestFailed) <==> manifest.runId != run || AddsTwice(manifest.payloads, payloads))
    ensures r.Some? ==> r.value == ManifestFailed || r.value == StorageFailed
  {
    if manifest.runId != run {
      var e := Fail(storage, audit, run, StorageCode, ManifestFailed, a);
      return Some(e);
    }
    var m := AddAll(manifest, payloads);
    if m.None? {
      var e := Fail(storage, audit, run, StorageCode, ManifestFailed, a);
      return Some(e);
    }
    assert manifest.payloads == [] ==> m.value.payloads == payloads;
    var o := storage.Seal(m.value);
    if o.Rejected? {
      audit.CaptureFailedEntry(run, StorageCode);
      var _ := storage.Discard();
      return Some(StorageFailed);
    }
    r := None;
  }

  /** How a backup of the open run ends.  An error leaves nothing behind, unless the publishing
      rename had already happened: then the backup is there and its keys are revoked. */
  ghost predicate BackupEnded(
    a: Snapshot, before: Snapshot, b: Snapshot, run: RunId, manifest: Manifest, payloads: seq<PayloadPath>,
    dependable: bool, r: Option<UseCaseError>)
    requires before.open.Some? && run in before.staging
  {
    && b.open.None?
    && if b.backups == a.backups then
         && r.Some?
         && (dependable && run !in a.quarantine ==> CleanedUp(a, b, run))
       else
         && manifest.backupId !in a.backups && manifest.runId == run
         && b.backups == a.backups[manifest.backupId := before.staging[run]]
         && SetOf(manifest.payloads + payloads) == before.staging[run].payload
         && run !in b.staging && b.quarantine == a.quarantine
         && b.recorded == a.recorded + SetOf(before.open.value.credentials)
         && b.revoked == if r.None? then a.revoked else a.revoked + SetOf(before.open.value.credentials)
  }

  predicate CanStart(a: Snapshot, run: RunId, path: PayloadPath) {
    a.open.None? && run !in a.staging && "payload/" <= path
  }

  predicate CanFinish(a: Snapshot, run: RunId, manifest: Manifest) {
    manifest.runId == run && manifest.payloads == [] && manifest.backupId !in a.backups
  }

  /** A run in which nothing failed but possibly the sync after the rename: the backup is there
      either way, and the sync alone decides what is reported. */
  predicate PublishedBut(
    syncFails: bool, backups: map<BackupId, RunDirectory>, manifest: Manifest, r: Option<UseCaseError>)
  {
    manifest.backupId in backups && r == if syncFails then Some(StorageFailed) else None
  }

  /** How a run that could succeed ends when only the ports in `broken` fail.  (If discarding may
      fail as well, or the quarantine is taken, this is only said of runs that need no discarding.) */
  ghost predicate EndsAsReported(
    storage: BackupStorage, policyCode: AuditCode, run: RunId, manifest: Manifest, quarantine: map<RunId, RunDirectory>,
    before: seq<(RunId, AuditCode)>, r: Option<UseCaseError>, after: seq<(RunId, AuditCode)>)
    reads storage
  {
    && (BeginPort in storage.broken ==> r == Some(StorageFailed) && after == before)
    && (BeginPort !in storage.broken && (storage.broken <= {SyncPort} || (storage.dependable && run !in quarantine)) ==>
          IsReported(BackupReport(storage.broken, policyCode), run, before, r, after))
    && (manifest.backupId in storage.backups <==> storage.broken <= {SyncPort})
  }

  /******* The use cases *******/

  /** `FilesystemCaptureUseCase::execute`. */
  method CaptureFilesystem(storage: BackupStorage, audit: AuditLog, request: FilesystemRequest)
    returns (r: Option<UseCaseError>)
    modifies storage, audit
    ensures r == Some(BadRequest(InvalidRoots)) <==>
      request.roots == [] || |request.roots| > 32 || exists i :: 0 <= i < |request.roots| && !ValidRemotePath(request.roots[i])
    ensures storage.backups == old(storage.backups)
    ensures r.None? ==>
      && ValidFilesystemRequest(request) && IsOpen(old(Snap(storage)), Snap(storage), request.runId)
      && storage.staging[request.runId].payload == {request.path}
    ensures r.Some? && r.value.BadRequest? ==> r.value.reason == InvalidRoots
    ensures audit.failures == old(audit.failures) || LoggedOnce(old(audit.failures), audit.failures, request.runId)
    ensures r.None? ==> audit.failures == old(audit.failures)
    ensures r.Some? ==>
      if audit.failures == old(audit.failures) then NeverBegan(old(Snap(storage)), Snap(storage), request.runId)
      else storage.dependable && request.runId !in old(storage.quarantine) ==>
        CleanedUp(old(Snap(storage)), Snap(storage), request.runId)
    ensures !ValidFilesystemRequest(request) ==>
      r == Some(BadRequest(InvalidRoots)) && Snap(storage) == old(Snap(storage))
    ensures storage.faults >= old(storage.faults)
    ensures CanStart(old(Snap(storage)), request.runId, request.path) && ValidFilesystemRequest(request) ==>
      (r.None? <==> storage.faults == old(storage.faults))
    ensures r.None? ==> storage.faults == old(storage.faults)
    ensures storage.calm && CanStart(old(Snap(storage)), request.runId, request.path) && ValidFilesystemRequest(request) ==>
      && (BeginPort in storage.broken ==> r == Some(StorageFailed) && audit.failures == old(audit.failures))
      && (BeginPort !in storage.broken && storage.dependable && request.runId !in old(storage.quarantine) ==>
            IsReported(CaptureReport(storage.broken, ArchivePolicyCode), request.runId, old(audit.failures), r, audit.failures))
      && (storage.broken <= {SealPort, SyncPort} ==> r.None?)
      && (r.None? ==> CaptureReport(storage.broken, ArchivePolicyCode) == None)
  {
    OtherPorts(storage.broken, ArchivePolicyCode);
    if !ValidFilesystemRequest(request) {
      return Some(BadRequest(InvalidRoots));
    }
    ghost var a := Snap(storage);
    var o := storage.Begin(request.runId);
    if o.Rejected? {
      return Some(StorageFailed);
    }
    r := CaptureIntoStaging(storage, audit, request.runId, request.path, ArchivePolicyCode, a);
  }

  /** `FilesystemBackupUseCase::execute`. */
  method BackupFilesystem(storage: BackupStorage, audit: AuditLog, request: FilesystemRequest, manifest: Manifest)
    returns (r: Option<UseCaseError>)
    modifies storage, audit
    ensures audit.failures == old(audit.failures) || LoggedOnce(old(audit.failures), audit.failures, request.runId)
    ensures RunEnded(old(Snap(storage)), Snap(storage), request.runId, manifest, storage.dependable,
               audit.failures != old(audit.failures), r)
    ensures r.None? ==>
      SetOf(manifest.payloads + [request.path]) == {request.path} && storage.faults == old(storage.faults)
    ensures (&& storage.faults == old(storage.faults) && ValidFilesystemRequest(request)
             && CanStart(old(Snap(storage)), request.runId, request.path)
             && CanFinish(old(Snap(storage)), request.runId, manifest)) ==> r.None?
    ensures NewBackupHolds(old(Snap(storage)), Snap(storage), manifest, {request.path})
    ensures (&& storage.calm && ValidFilesystemRequest(request)
             && CanStart(old(Snap(storage)), request.runId, request.path)
             && CanFinish(old(Snap(storage)), request.runId, manifest)) ==>
      EndsAsReported(storage, ArchivePolicyCode, request.runId, manifest, old(storage.quarantine), old(audit.failures), r, audit.failures)
  {
    OtherPorts(storage.broken, ArchivePolicyCode);
    r := CaptureFilesystem(storage, audit, request);
    if r.Some? {
      return;
    }
    SingletonSet(request.path);
    r := FinishBackup(storage, audit, request.runId, manifest, [request.path], old(Snap(storage)));
  }

  /** `EmbeddedDatabaseCaptureUseCase::execute_within_staging`: the request is checked once more,
      and a bad one is returned without touching the open run. */
  method CaptureDatabaseWithinStaging(
    storage: BackupStorage, audit: AuditLog, request: DatabaseRequest, ghost a: Snapshot)
    returns (r: Option<UseCaseError>)
    modifies storage, audit
    ensures r == Some(BadRequest(InvalidDatabasePath)) <==> request.databasePath == "/" || !ValidRemotePath(request.databasePath)
    ensures storage.backups == old(storage.backups)
    ensures !ValidDatabaseRequest(request) ==>
      r == Some(BadRequest(InvalidDatabasePath)) && Snap(storage) == old(Snap(storage))
    ensures ValidDatabaseRequest(request) && IsOpen(a, old(Snap(storage)), request.runId) ==>
      && (r.None? ==>
            && IsOpen(a, Snap(storage), request.runId)
            && storage.staging[request.runId].payload == old(storage.staging)[request.runId].payload + {request.path})
      && (r.Some? && storage.dependable && request.runId !in a.quarantine ==>
            CleanedUp(a, Snap(storage), request.runId))
    ensures if r.None? || !ValidDatabaseRequest(request) then audit.failures == old(audit.failures)
            else LoggedOnce(old(audit.failures), audit.failures, request.runId)
    ensures r.Some? && ValidDatabaseRequest(request) ==> !r.value.BadRequest?
    ensures storage.faults >= old(storage.faults)
    ensures (&& ValidDatabaseRequest(request) && IsOpen(a, old(Snap(storage)), request.runId)
             && "payload/" <= request.path && request.path !in old(storage.staging)[request.runId].payload) ==>
      (r.None? <==> storage.faults == old(storage.faults))
    ensures IsOpen(a, old(Snap(storage)), request.runId) && r.None? ==> storage.faults == old(storage.faults)
    ensures ValidDatabaseRequest(request) && (CaptureReport(storage.broken, DatabasePolicyCode) != None) ==> r.Some?
    ensures (&& storage.calm && ValidDatabaseRequest(request) && IsOpen(a, old(Snap(storage)), request.runId)
             && "payload/" <= request.path && request.path !in old(storage.staging)[request.runId].payload) ==>
      && (storage.dependable && request.runId !in a.quarantine ==>
            IsReported(CaptureReport(storage.broken, DatabasePolicyCode), request.runId, old(audit.failures), r, audit.failures))
      && (CaptureReport(storage.broken, DatabasePolicyCode) == None ==> r.None?)
  {
    if !ValidDatabaseRequest(request) {
      return Some(BadRequest(InvalidDatabasePath));
    }
    r := CaptureIntoStaging(storage, audit, request.runId, request.path, DatabasePolicyCode, a);
  }

  /** `EmbeddedDatabaseBackupUseCase::execute`. */
  method BackupDatabase(storage: BackupStorage, audit: AuditLog, request: DatabaseRequest, manifest: Manifest)
    returns (r: Option<UseCaseError>)
    modifies storage, audit
    ensures r == Some(BadRequest(InvalidDatabasePath)) <==> request.databasePath == "/" || !ValidRemotePath(request.databasePath)
    ensures r == Some(BadRequest(InvalidDatabasePath)) ==> Snap(storage) == old(Snap(storage))
    ensures audit.failures == old(audit.failures) || LoggedOnce(old(audit.failures), audit.failures, request.runId)
    ensures RunEnded(old(Snap(storage)), Snap(storage), request.runId, manifest, storage.dependable,
               audit.failures != old(audit.failures), r)
    ensures NewBackupHolds(old(Snap(storage)), Snap(storage), manifest, {request.path})
    ensures r.None? ==> storage.faults == old(storage.faults)
    ensures (&& storage.faults == old(storage.faults) && ValidDatabaseRequest(request)
             && CanStart(old(Snap(storage)), request.runId, request.path)
             && CanFinish(old(Snap(storage)), request.runId, manifest)) ==> r.None?
    ensures (&& storage.calm && ValidDatabaseRequest(request)
             && CanStart(old(Snap(storage)), request.runId, request.path)
             && CanFinish(old(Snap(storage)), request.runId, manifest)) ==>
      EndsAsReported(storage, DatabasePolicyCode, request.runId, manifest, old(storage.quarantine), old(audit.failures), r, audit.failures)
  {
    OtherPorts(storage.broken, DatabasePolicyCode);
    ghost var a := Snap(storage);
    if !ValidDatabaseRequest(request) {
      return Some(BadRequest(InvalidDatabasePath));
    }
    var o := storage.Begin(request.runId);
    if o.Rejected? {
      return Some(StorageFailed);
    }
    r := CaptureDatabaseWithinStaging(storage, audit, request, a);
    if r.Some? {
      return;
    }
    SingletonSet(request.path);
    r := FinishBackup(storage, audit, request.runId, manifest, [request.path], a);
  }

  /** `execute_combined` with `seal_combined`: both payloads in one staging run. */
  method BackupCombined(
    storage: BackupStorage, audit: AuditLog, request: FilesystemRequest, database: DatabaseRequest, manifest: Manifest)
    returns (r: Option<UseCaseError>)
    modifies storage, audit
    ensures r == Some(BadRequest(DatabaseRequestMismatch)) <==>
      database.runId != request.runId || database.profileId != request.profileId
    ensures r == Some(BadRequest(DatabaseRequestMismatch)) ==>
      Snap(storage) == old(Snap(storage)) && audit.failures == old(audit.failures)
    ensures audit.failures == old(audit.failures) || LoggedOnce(old(audit.failures), audit.failures, request.runId)
    ensures ValidDatabaseRequest(database) ==>
      RunEnded(old(Snap(storage)), Snap(storage), request.runId, manifest, storage.dependable,
               audit.failures != old(audit.failures), r)
    ensures NewBackupHolds(old(Snap(storage)), Snap(storage), manifest, {request.path, database.path})
    // A bad database path is noticed only after the filesystem payload is in: the run is then
    // left open, its directory still in `staging/` and its key not revoked.
    ensures !ValidDatabaseRequest(database) ==>
      && r.Some? && storage.backups == old(storage.backups)
      && (if r.value == BadRequest(InvalidDatabasePath)
          then IsOpen(old(Snap(storage)), Snap(storage), request.runId)
          else RunEnded(old(Snap(storage)), Snap(storage), request.runId, manifest, storage.dependable,
               audit.failures != old(audit.failures), r))
    ensures r == Some(BadRequest(InvalidDatabasePath)) ==> !ValidDatabaseRequest(database)
    ensures r.None? ==> storage.faults == old(storage.faults)
    ensures (&& storage.faults == old(storage.faults) && ValidFilesystemRequest(request) && ValidDatabaseRequest(database)
             && database.runId == request.runId && database.profileId == request.profileId
             && CanStart(old(Snap(storage)), request.runId, request.path)
             && "payload/" <= database.path && database.path != request.path
             && CanFinish(old(Snap(storage)), request.runId, manifest)) ==> r.None?
    ensures (&& storage.calm && ValidFilesystemRequest(request) && !ValidDatabaseRequest(database)
             && database.runId == request.runId && database.profileId == request.profileId
             && CanStart(old(Snap(storage)), request.runId, request.path)
             && storage.broken <= {SealPort, SyncPort}) ==>
      && r == Some(BadRequest(InvalidDatabasePath)) && audit.failures == old(audit.failures)
      && IsOpen(old(Snap(storage)), Snap(storage), request.runId)
      && storage.staging[request.runId].payload == {request.path}
    ensures (&& storage.calm && ValidFilesystemRequest(request) && ValidDatabaseRequest(database)
             && database.runId == request.runId && database.profileId == request.profileId
             && CanStart(old(Snap(storage)), request.runId, request.path)
             && "payload/" <= database.path && database.path != request.path
             && CanFinish(old(Snap(storage)), request.runId, manifest)) ==>
      EndsAsReported(storage, ArchivePolicyCode, request.runId, manifest, old(storage.quarantine), old(audit.failures), r, audit.failures)
  {
    OtherPorts(storage.broken, ArchivePolicyCode);
    ghost var a := Snap(storage);
    if database.runId != request.runId || database.profileId != request.profileId {
      return Some(BadRequest(DatabaseRequestMismatch));
    }
    r := CaptureFilesystem(storage, audit, request);
    if r.Some? {
      return;
    }
    r := CaptureDatabaseWithinStaging(storage, audit, database, a);
    if r.Some? {
      return;
    }
    SingletonSet(request.path);
    SetOfAppend([request.path], database.path);
    assert [request.path, database.path] == [request.path] + [database.path];
    r := FinishBackup(storage, audit, request.runId, manifest, [request.path, database.path], a);
  }

  /** If the run published a backup, it holds exactly these payload files. */
  ghost predicate NewBackupHolds(a: Snapshot, b: Snapshot, manifest: Manifest, payload: set<PayloadPath>) {
    manifest.backupId in b.backups && manifest.backupId !in a.backups ==> b.backups[manifest.backupId].payload == payload
  }

  /** How a whole run ends: never begun, sealed, cleaned up, or published with an error.  Every
      failure after `begin` is the one that was logged. */
  ghost predicate RunEnded(
    a: Snapshot, b: Snapshot, run: RunId, manifest: Manifest, dependable: bool, logged: bool, r: Option<UseCaseError>)
  {
    if b.backups == a.backups then
      && r.Some?
      && (if logged then dependable && run !in a.quarantine ==> CleanedUp(a, b, run) else NeverBegan(a, b, run))
    else
      && manifest.backupId !in a.backups && manifest.runId == run
      && b.backups.Keys == a.backups.Keys + {manifest.backupId}
      && b.backups - {manifest.backupId} == a.backups
      && run !in b.staging && (logged <==> r.Some?)
      && (if r.None? then b.revoked == a.revoked else b.recorded - a.recorded <= b.revoked)
  }
}
