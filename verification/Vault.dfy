/** Initialising the file vault: the master key is written once and never replaced. */
module Vault {
  import opened Wrappers

  type Key = seq<int>

  /** The key file, and the key the canary was encrypted under. */
  datatype Files = Files(masterKey: Option<Key>, canary: Option<Key>)

  datatype InitOutcome = Created | Recovered | AlreadyInitialized | Corrupt | Unavailable

  class EncryptedFileVault {
    var files: Files
    var live: bool
    /** How many steps have failed, the one that killed the process among them. */
    var faults: nat

    /** One atomic file replacement, as in `atomic_write`. */
    method Step(next: Files) returns (ok: bool)
      modifies `files, `live, `faults
      ensures faults >= old(faults)
      ensures ok <==> faults == old(faults)
      ensures ok ==> old(live) && live && files == next
      ensures !ok ==> files == old(files) || (old(live) && files == next)
      ensures live ==> old(live)
    {
      if !live {
        faults := faults + 1;
        return false;
      }
      if * {
        files := next;
        if * {
          return true;
        }
      }
      if * {
        live := false;
      }
      faults := faults + 1;
      return false;
    }

    method Init(generated: Key) returns (r: InitOutcome)
      modifies `files, `live, `faults
      ensures faults >= old(faults)
      ensures Initialises(old(files), files, r)
      ensures faults == old(faults) ==>
        r == (if old(files).masterKey.None? then Created
              else if old(files).canary.None? then Recovered
              else if old(files).canary == old(files).masterKey then AlreadyInitialized else Corrupt)
      ensures faults > old(faults) ==> r == Unavailable
      ensures r == Created ==> files == Files(Some(generated), Some(generated))
      ensures r == Recovered ==> files.canary == files.masterKey
    {
      var ok := Step(files);
      if !ok {
        return Unavailable;
      }
      if files.masterKey.Some? {
        r := RecoverOrReject(files.masterKey.value);
      } else {
        r := CreateFresh(generated);
      }
    }

    method RecoverOrReject(key: Key) returns (r: InitOutcome)
      requires files.masterKey == Some(key)
      modifies `files, `live, `faults
      ensures faults >= old(faults)
      ensures files.masterKey == old(files).masterKey
      ensures old(files).canary.Some? ==>
        && files == old(files)
        && (faults == old(faults) ==> r == if old(files).canary.value == key then AlreadyInitialized else Corrupt)
      ensures r == Recovered ==> files.canary == Some(key)
      ensures faults == old(faults) && old(files).canary.None? ==> r == Recovered
      ensures faults > old(faults) ==> r == Unavailable
    {
      var ok := Step(files); // the canary file is read
      if !ok {
        return Unavailable;
      }
      if files.canary.Some? {
        return if files.canary.value == key then AlreadyInitialized else Corrupt;
      }
      ok := Step(files.(canary := Some(key)));
      r := if ok then Recovered else Unavailable;
    }

    method CreateFresh(key: Key) returns (r: InitOutcome)
      requires files.masterKey.None?
      modifies `files, `live, `faults
      ensures faults >= old(faults)
      ensures files in {old(files), old(files).(masterKey := Some(key)), Files(Some(key), Some(key))}
      ensures r == Created ==> files == Files(Some(key), Some(key))
      ensures r == if faults == old(faults) then Created else Unavailable
    {
      var ok := Step(files.(masterKey := Some(key)));
      if !ok {
        return Unavailable;
      }
      ok := Step(files.(canary := Some(key)));
      r := if ok then Created else Unavailable;
    }
  }

  /** What a call of `init`, finished or interrupted, may do. */
  predicate Initialises(a: Files, b: Files, r: InitOutcome) {
    && (a.masterKey.Some? ==> b.masterKey == a.masterKey)
    && (r == Created ==> a.masterKey.None? && b.masterKey.Some? && b.canary == b.masterKey)
    && (r == Recovered ==> a.masterKey.Some? && a.canary.None? && b.canary == b.masterKey)
    && (r == AlreadyInitialized ==> a.masterKey.Some? && a.canary == a.masterKey && b == a)
  }

  datatype InitCall = InitCall(before: Files, after: Files, outcome: InitOutcome)

  predicate IsHistory(calls: seq<InitCall>) {
    && (forall i | 0 <= i < |calls| :: Initialises(calls[i].before, calls[i].after, calls[i].outcome))
    && (forall i | 0 <= i < |calls| - 1 :: calls[i + 1].before == calls[i].after)
  }

  /** A published master key never changes. */
  lemma {:induction false} MasterKeyIsStable(calls: seq<InitCall>, i: nat, j: nat)
    requires IsHistory(calls) && i <= j < |calls| && calls[i].after.masterKey.Some?
    ensures calls[j].after.masterKey == calls[i].after.masterKey
    decreases j - i
  {
    if i < j {
      MasterKeyIsStable(calls, i, j - 1);
      assert calls[j].before == calls[j - 1].after;
    }
  }

  /** Of all calls of `init`, interrupted or not, at most one reports `Created`. */
  lemma CreatedAtMostOnce(calls: seq<InitCall>, i: nat, j: nat)
    requires IsHistory(calls) && i < j < |calls| && calls[i].outcome == Created
    ensures calls[j].outcome != Created
  {
    MasterKeyIsStable(calls, i, j - 1);
    assert calls[j].before == calls[j - 1].after;
  }
}
