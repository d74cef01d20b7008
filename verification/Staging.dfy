/** A capture run's storage: the staging directory, its payload keys, and the ways it ends. */
module Staging {
  import opened Wrappers
  import opened Ordering

  type RunId = string
  type BackupId = string
  type CredentialId = string
  type PayloadPath = string

  /** A run's directory: the payload files in it. */
  datatype RunDirectory = RunDirectory(payload: set<PayloadPath>)

  /** An open staging run and the payload keys recorded for it. */
  datatype StagingBackup = StagingBackup(runId: RunId, credentials: seq<CredentialId>)

  datatype Manifest = Manifest(backupId: BackupId, runId: RunId, payloads: seq<PayloadPath>)

  datatype Outcome = Ok | Rejected

  /** Where a run can fail. */
  datatype Port = BeginPort | ReservePort | CapturePort | InspectPort | RegisterPort | SealPort | SyncPort

  /** `LocalRepositoryStorageAdapter` over a repository and a secret store.  Any call may fail at
      any of its steps. */
  class BackupStorage {
    var staging: map<RunId, RunDirectory>
    var backups: map<BackupId, RunDirectory>
    var quarantine: map<RunId, RunDirectory>
    /** The one open run, if any. */
    var open: Option<StagingBackup>
    /** Every payload key ever recorded for a run, and every key a delete was issued for. */
    var recorded: set<CredentialId>
    var revoked: set<CredentialId>
    /** How many steps have failed. */
    var faults: nat
    const encrypted: bool
    /** True when removing payloads and quarantining a run never fail. */
    const dependable: bool
    /** The steps that always fail; `SyncPort` is the directory sync after the publishing rename. */
    const broken: set<Port>
    /** True when no other step fails. */
    const calm: bool

    /** Whether the environment makes the next step, which belongs to `port`, fail. */
    method Fault(port: Port) returns (fault: bool)
      modifies `faults
      ensures port in broken ==> fault
      ensures calm && port !in broken ==> !fault
      ensures faults == if fault then old(faults) + 1 else old(faults)
    {
      fault := *;
      if calm {
        fault := false;
      }
      if port in broken {
        fault := true;
      }
      if fault {
        faults := faults + 1;
      }
    }

    /** Whether the next step of discarding a run fails. */
    method Slip() returns (fault: bool)
      modifies `faults
      ensures dependable ==> !fault
      ensures faults == if fault then old(faults) + 1 else old(faults)
    {
      fault := *;
      if dependable {
        fault := false;
      }
      if fault {
        faults := faults + 1;
      }
    }

    method Begin(run: RunId) returns (r: Outcome)
      modifies `staging, `open, `faults
      ensures faults >= old(faults)
      ensures r.Ok? <==> faults == old(faults) && old(open).None? && run !in old(staging)
      ensures r.Ok? ==>
        && run !in old(staging) && staging == old(staging)[run := RunDirectory({})]
        && old(open).None? && open == Some(StagingBackup(run, []))
      ensures r.Rejected? ==>
        && open == old(open)
        && (staging == old(staging) || (run !in old(staging) && staging == old(staging)[run := RunDirectory({})]))
      ensures old(open).Some? || run in old(staging) ==> r.Rejected? && staging == old(staging)
      ensures BeginPort in broken ==> r.Rejected?
      ensures calm && BeginPort !in broken && old(open).None? && run !in old(staging) ==> r.Ok?
    {
      var fault: bool;
      if open.Some? {
        return Rejected;
      }
      if run in staging {
        return Rejected;
      }
      fault := Fault(BeginPort);
      if fault {
        return Rejected; // the lock is busy, or the directory cannot be created
      }
      staging := staging[run := RunDirectory({})];
      fault := Fault(BeginPort);
      if fault {
        return Rejected; // a sub-directory cannot be created, or the parent not synced
      }
      open := Some(StagingBackup(run, []));
      r := Ok;
    }

    method Reserve(path: PayloadPath) returns (r: Outcome)
      modifies `faults
      ensures faults >= old(faults)
      ensures r.Ok? <==>
        faults == old(faults) && open.Some? && "payload/" <= path && !HasPayload(staging, open.value.runId, path)
      ensures ReservePort in broken ==> r.Rejected?
      ensures calm && ReservePort !in broken && open.Some? && "payload/" <= path && !HasPayload(staging, open.value.runId, path) ==>
        r.Ok?
    {
      var fault: bool;
      if open.None? || !("payload/" <= path) {
        return Rejected;
      }
      if open.value.runId in staging && path in staging[open.value.runId].payload {
        return Rejected;
      }
      fault := Fault(ReservePort);
      if fault {
        return Rejected;
      }
      r := Ok;
    }

    /** A capture port writing to a reserved destination, completely or in part. */
    method Receive(path: PayloadPath) returns (ok: bool)
      modifies `staging, `faults
      ensures faults >= old(faults)
      ensures ok <==> faults == old(faults) && open.Some? && open.value.runId in old(staging)
      ensures staging.Keys == old(staging).Keys
      ensures open.Some? ==> staging - {open.value.runId} == old(staging) - {open.value.runId}
      ensures open.None? ==> staging == old(staging)
      ensures ok ==>
        && open.Some? && open.value.runId in staging
        && staging[open.value.runId].payload == old(staging)[open.value.runId].payload + {path}
      ensures CapturePort in broken ==> !ok
      ensures calm && CapturePort !in broken && open.Some? && open.value.runId in old(staging) ==> ok
    {
      var fault: bool;
      if open.None? || open.value.runId !in staging {
        return false;
      }
      fault := Fault(CapturePort);
      if fault {
        return false;
      }
      var run := open.value.runId;
      staging := staging[run := RunDirectory(staging[run].payload + {path})];
      fault := Fault(CapturePort);
      if fault {
        return false;
      }
      ok := true;
    }

    /** Registers a payload file, encrypting it under a key of its own when the adapter does. */
    method RegisterPayload(path: PayloadPath) returns (r: Outcome)
      modifies `open, `recorded, `staging, `faults
      ensures faults >= old(faults)
      ensures r.Ok? <==> faults == old(faults) && old(open).Some? && HasPayload(old(staging), old(open).value.runId, path)
      ensures open.Some? <==> old(open).Some?
      ensures open.Some? ==>
        && open.value.runId == old(open).value.runId
        && old(open).value.credentials <= open.value.credentials
        && |open.value.credentials| <= |old(open).value.credentials| + 1
        && recorded == old(recorded) + SetOf(open.value.credentials[|old(open).value.credentials|..])
        && staging.Keys == old(staging).Keys
        && staging - {open.value.runId} == old(staging) - {open.value.runId}
      ensures open.None? ==> r.Rejected? && recorded == old(recorded) && staging == old(staging)
      ensures r.Ok? ==>
        && open.value.runId in staging && path in staging[open.value.runId].payload
        && staging == old(staging)
        && |open.value.credentials| == |old(open).value.credentials| + (if encrypted then 1 else 0)
      ensures RegisterPort in broken ==> r.Rejected?
      ensures calm && RegisterPort !in broken && open.Some? && HasPayload(old(staging), open.value.runId, path) ==> r.Ok?
    {
      var fault: bool;
      if open.None? {
        return Rejected;
      }
      var run, credentials := open.value.runId, open.value.credentials;
      assert credentials[|credentials|..] == [] && recorded + SetOf<CredentialId>([]) == recorded;
      if run !in staging || path !in staging[run].payload {
        return Rejected;
      }
      if encrypted {
        fault := Fault(RegisterPort);
        if fault {
          return Rejected; // no recovery key, or the key cannot be stored
        }
        var id: CredentialId := *;
        open := Some(StagingBackup(run, credentials + [id]));
        SetOfAppend([], id);
        assert (credentials + [id])[|credentials|..] == [] + [id] && SetOf([] + [id]) == {id};
        recorded := recorded + {id};
        fault := Fault(RegisterPort);
        if fault {
          return Rejected; // encryption fails, the plaintext is still there
        }
        fault := Fault(RegisterPort);
        if fault {
          // the plaintext is removed and the ciphertext cannot be renamed over it
          staging := staging[run := RunDirectory(staging[run].payload - {path})];
          return Rejected;
        }
      }
      fault := Fault(RegisterPort);
      if fault {
        return Rejected;
      }
      r := Ok;
    }

    method RevokePending(run: StagingBackup)
      modifies `revoked
      ensures revoked == old(revoked) + SetOf(run.credentials)
    {
      for i := 0 to |run.credentials|
        invariant revoked == old(revoked) + SetOf(run.credentials[..i])
      {
        assert SetOf(run.credentials[..i + 1]) == SetOf(run.credentials[..i]) + {run.credentials[i]} by {
          assert run.credentials[..i + 1] == run.credentials[..i] + [run.credentials[i]];
          SetOfAppend(run.credentials[..i], run.credentials[i]);
        }
        revoked := revoked + {run.credentials[i]};
      }
      assert run.credentials[..|run.credentials|] == run.credentials;
    }

    /** Moves a run's directory from `staging/` to `quarantine/`. */
    method Quarantine(run: RunId) returns (r: Outcome)
      modifies `staging, `quarantine, `faults
      ensures faults >= old(faults)
      ensures r.Ok? <==> faults == old(faults) && run in old(staging) && run !in old(quarantine)
      ensures
        || (staging == old(staging) && quarantine == old(quarantine) && r.Rejected?)
        || (run in old(staging) && run !in old(quarantine) && staging == old(staging) - {run}
            && quarantine == old(quarantine)[run := old(staging)[run]])
      ensures dependable ==> faults == old(faults)
    {
      if run !in staging || run in quarantine {
        return Rejected;
      }
      var fault := Slip();
      if fault {
        return Rejected;
      }
      quarantine := quarantine[run := staging[run]];
      staging := staging - {run};
      fault := Slip();
      if fault {
        return Rejected;
      }
      r := Ok;
    }

    /** Ends the open run: payloads removed, keys revoked, directory quarantined. */
    method Discard() returns (r: Outcome)
      modifies `staging, `quarantine, `open, `revoked, `faults
      ensures open.None? && faults >= old(faults)
      ensures old(open).None? ==>
        r.Ok? && staging == old(staging) && quarantine == old(quarantine) && revoked == old(revoked)
      ensures old(open).Some? ==>
        var run := old(open).value;
        && revoked <= old(revoked) + SetOf(run.credentials)
        && old(revoked) <= revoked
        && staging - {run.runId} == old(staging) - {run.runId}
        && quarantine - {run.runId} == old(quarantine) - {run.runId}
        && (r.Ok? ==>
              && run.runId !in staging && SetOf(run.credentials) <= revoked
              && run.runId in quarantine && quarantine[run.runId].payload == {})
        && (r.Ok? <==> faults == old(faults) && run.runId in old(staging) && run.runId !in old(quarantine))
        && (dependable ==> faults == old(faults))
    {
      if open.None? {
        return Ok;
      }
      var run := open.value;
      open := None;
      if run.runId in staging {
        var fault := Slip();
        if fault {
          return Rejected;
        }
        staging := staging[run.runId := RunDirectory({})];
      }
      RevokePending(run);
      r := Quarantine(run.runId);
    }

    /** Publishes the open run as a sealed backup, or ends it as failed. */
    method Seal(manifest: Manifest) returns (r: Outcome)
      modifies `staging, `backups, `quarantine, `open, `revoked, `faults
      ensures open.None? && faults >= old(faults)
      ensures r.Ok? <==>
        faults == old(faults) && old(open).Some? && Sealable(old(open).value, manifest, old(staging), old(backups))
      ensures old(open).None? ==>
        && r.Rejected? && staging == old(staging) && backups == old(backups)
        && quarantine == old(quarantine) && revoked == old(revoked)
      ensures old(open).Some? ==> SealedOrEnded(old(open).value, manifest,
        old(staging), old(backups), old(quarantine), old(revoked), staging, backups, quarantine, revoked, dependable, r)
      ensures SealPort in broken ==> r.Rejected? && backups == old(backups)
      ensures calm && SealPort !in broken && old(open).Some? && Sealable(old(open).value, manifest, old(staging), old(backups)) ==>
        && manifest.backupId in backups && backups[manifest.backupId] == old(staging)[old(open).value.runId]
        && (r.Ok? <==> SyncPort !in broken)
        && (SyncPort in broken ==> SetOf(old(open).value.credentials) <= revoked)
    {
      if open.None? {
        return Rejected;
      }
      var run := open.value;
      open := None;
      r := SealInner(run, manifest);
      if r.Ok? {
        return;
      }
      RevokePending(run);
      var _ := Quarantine(run.runId);
    }

    method SealInner(run: StagingBackup, manifest: Manifest) returns (r: Outcome)
      modifies `staging, `backups, `faults
      ensures faults >= old(faults)
      ensures r.Ok? <==> faults == old(faults) && Sealable(run, manifest, old(staging), old(backups))
      ensures
        || (r.Rejected? && staging == old(staging) && backups == old(backups))
        || (manifest.runId == run.runId && run.runId in old(staging) && manifest.backupId !in old(backups)
            && staging == old(staging) - {run.runId}
            && manifest.payloads != [] && SetOf(manifest.payloads) == old(staging)[run.runId].payload
            && backups == old(backups)[manifest.backupId := old(staging)[run.runId]])
      ensures r.Ok? ==> backups != old(backups)
      ensures SyncPort in broken ==> r.Rejected?
      ensures SealPort in broken ==> r.Rejected? && backups == old(backups)
      ensures calm && SealPort !in broken && Sealable(run, manifest, old(staging), old(backups)) ==>
        manifest.backupId in backups && (r.Ok? <==> SyncPort !in broken)
    {
      var fault: bool;
      if manifest.runId != run.runId || run.runId !in staging {
        return Rejected;
      }
      if SetOf(manifest.payloads) != staging[run.runId].payload || manifest.payloads == [] {
        return Rejected; // the payload tree is not what the manifest lists
      }
      fault := Fault(SealPort);
      if fault {
        return Rejected; // validation, signing or writing the metadata fails
      }
      if manifest.backupId in backups {
        return Rejected;
      }
      fault := Fault(SealPort);
      if fault {
        return Rejected;
      }
      var directory := staging[run.runId];
      staging := staging - {run.runId};
      backups := backups[manifest.backupId := directory];
      assert manifest.backupId in backups;
      fault := Fault(SyncPort);
      if fault {
        return Rejected; // published, but the parent directory cannot be synced
      }
      r := Ok;
    }
  }

  predicate HasPayload(staging: map<RunId, RunDirectory>, run: RunId, path: PayloadPath) {
    run in staging && path in staging[run].payload
  }

  /** The manifest is this run's, lists exactly its payload files and has a fresh backup id. */
  predicate Sealable(
    run: StagingBackup, manifest: Manifest, staging: map<RunId, RunDirectory>, backups: map<BackupId, RunDirectory>)
  {
    && manifest.runId == run.runId && run.runId in staging && manifest.payloads != []
    && SetOf(manifest.payloads) == staging[run.runId].payload && manifest.backupId !in backups
  }

  /** The ways a call of `seal` on `run` ends. */
  ghost predicate SealedOrEnded(
    run: StagingBackup, manifest: Manifest,
    staging: map<RunId, RunDirectory>, backups: map<BackupId, RunDirectory>,
    quarantine: map<RunId, RunDirectory>, revoked: set<CredentialId>,
    staging': map<RunId, RunDirectory>, backups': map<BackupId, RunDirectory>,
    quarantine': map<RunId, RunDirectory>, revoked': set<CredentialId>,
    dependable: bool, r: Outcome)
  {
    && staging' - {run.runId} == staging - {run.runId}
    && quarantine' - {run.runId} == quarantine - {run.runId}
    && if backups' == backups then
         // nothing was published: the run has failed and its keys are revoked
         && r.Rejected? && revoked' == revoked + SetOf(run.credentials)
         && (dependable && run.runId in staging && run.runId !in quarantine ==>
               run.runId !in staging' && run.runId in quarantine')
       else
         // exactly this run was published; if the call still failed, its keys are revoked too
         && manifest.runId == run.runId && run.runId in staging && manifest.backupId !in backups
         && manifest.payloads != [] && SetOf(manifest.payloads) == staging[run.runId].payload
         && backups' == backups[manifest.backupId := staging[run.runId]]
         && run.runId !in staging' && quarantine' == quarantine
         && revoked' == if r.Ok? then revoked else revoked + SetOf(run.credentials)
  }
}
