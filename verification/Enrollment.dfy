/** Enrolling the signing identity: intent, credential, configuration, in that order, so that an
    interruption anywhere is picked up again by the next call. */
module Enrollment {
  import opened Wrappers

  type CredentialId = string
  type KeyId = string

  datatype SigningConfig = SigningConfig(credentialId: CredentialId, keyId: KeyId)

  /** The two metadata files and the secret store.  A stored secret is named by the key id it
      yields; `enrolled` lists the credentials enrolment has created, in order. */
  datatype Node = Node(
    intent: Option<CredentialId>, config: Option<SigningConfig>,
    secrets: map<CredentialId, KeyId>, enrolled: seq<CredentialId>)

  datatype IdentityError = Missing | AlreadyEnrolled | EnrollmentRace | ConfigurationMismatch | Unavailable

  datatype Disposition = Loaded | Recovered | Enrolled
  datatype ManagedIdentity = ManagedIdentity(credentialId: CredentialId, disposition: Disposition, keyId: KeyId)
  datatype IdentityState = NotEnrolled | EnrollmentPending | RecoveryPending(keyId: KeyId) | Ready(keyId: KeyId)

  /** The stages of an enrolment. */
  predicate Coherent(n: Node) {
    match (n.config, n.intent)
    case (None, None) => n.enrolled == []
    case (None, Some(c)) =>
      if c in n.secrets then n.enrolled == [c] else n.enrolled == []
    case (Some(config), intent) =>
      && n.enrolled == [config.credentialId]
      && config.credentialId in n.secrets && n.secrets[config.credentialId] == config.keyId
      && (intent.Some? ==> intent.value == config.credentialId)
  }

  /** The identity, once its credential exists. */
  function Identity(n: Node): Option<(CredentialId, KeyId)> {
    if n.enrolled != [] && n.enrolled[0] in n.secrets then Some((n.enrolled[0], n.secrets[n.enrolled[0]])) else None
  }

  /** How a successful call comes by the identity: it was committed, or its credential was there
      without a configuration, or nothing was. */
  function NextDisposition(n: Node): Disposition {
    if n.config != None then Loaded else if n.enrolled == [] then Enrolled else Recovered
  }

  /** The reported key is the one the store holds under the configured credential. */
  predicate Reports(n: Node, identity: ManagedIdentity) {
    && n.config == Some(SigningConfig(identity.credentialId, identity.keyId))
    && identity.credentialId in n.secrets && n.secrets[identity.credentialId] == identity.keyId
  }

  /** What is wrong with a configuration, if anything. */
  function Fault(n: Node, config: SigningConfig): Option<IdentityError> {
    if config.credentialId !in n.secrets then Some(Missing)
    else if n.secrets[config.credentialId] != config.keyId then Some(ConfigurationMismatch)
    else None
  }

  /** What any call, finished or interrupted, may do: keep the identity if there is one. */
  ghost predicate Advances(n: Node, m: Node) {
    && Coherent(m)
    && |m.enrolled| <= 1 && n.enrolled <= m.enrolled
    && (Identity(n).Some? ==> Identity(m) == Identity(n))
    && (forall c | c in n.secrets :: c in m.secrets && m.secrets[c] == n.secrets[c])
  }

  class SigningIdentityManager {
    var node: Node
    /** False once the process has died; no step has an effect after that. */
    var live: bool
    /** How many steps have failed, the one that killed the process among them. */
    var faults: nat

    /** One atomic change of a file or of the secret store. */
    method Step(next: Node) returns (ok: bool)
      modifies `node, `live, `faults
      ensures faults >= old(faults)
      ensures ok <==> faults == old(faults)
      ensures ok ==> old(live) && live && node == next
      ensures !ok ==> node == old(node) || (old(live) && node == next)
      ensures live ==> old(live)
    {
      if !live {
        faults := faults + 1;
        return false;
      }
      if * {
        node := next; // done, although an error or a crash may hide it
        if * {
          return true;
        }
      }
      if * {
        live := false;
      }
      faults := faults + 1;
      return false;
    }

    /** `random` and `generated` are the credential id and the key this call would draw. */
    method EnrollOrLoad(random: CredentialId, generated: KeyId) returns (r: Result<ManagedIdentity, IdentityError>)
      requires random !in node.secrets
      modifies `node, `live, `faults
      ensures faults >= old(faults)
      ensures faults > old(faults) ==> r == Failure(Unavailable)
      ensures r.Success? ==> Reports(node, r.value) && node.intent == None
      ensures Coherent(old(node)) ==>
        && IsCall(Call(old(node), node, if r.Success? then Some(r.value.keyId) else None))
        && (r.Success? ==>
              && node.config == Some(SigningConfig(r.value.credentialId, r.value.keyId)) && node.intent.None?
              && Identity(node) == Some((r.value.credentialId, r.value.keyId)))
        && (r.Success? ==> r.value.disposition == NextDisposition(old(node)))
        && (faults == old(faults) ==> r.Success?)
    {
      var ok := Step(node);
      if !ok {
        return Failure(Unavailable);
      }
      if node.config.Some? {
        r := LoadCommitted();
        return;
      }
      if node.intent.None? {
        ok := CreateIntent(random);
        if !ok {
          return Failure(Unavailable);
        }
      }
      r := FinishEnrollment(generated);
    }

    method LoadCommitted() returns (r: Result<ManagedIdentity, IdentityError>)
      requires node.config.Some?
      modifies `node, `live, `faults
      ensures faults >= old(faults)
      ensures var fault := Fault(old(node), old(node).config.value);
        && (fault.Some? ==> r.Failure? && node == old(node))
        && (faults == old(faults) ==> if fault.Some? then r == Failure(fault.value) else r.Success?)
      ensures faults > old(faults) ==> r == Failure(Unavailable)
      ensures r.Success? ==> Reports(node, r.value) && node.intent == None
      ensures Coherent(old(node)) ==>
        && Advances(old(node), node)
        && (r.Success? ==>
              && node.intent.None? && r.value.disposition.Loaded?
              && node.config == Some(SigningConfig(r.value.credentialId, r.value.keyId)))
        && (faults == old(faults) ==> r.Success?)
    {
      var config := node.config.value;
      var loaded := Load(config.credentialId);
      if loaded.Failure? {
        return Failure(loaded.error);
      }
      if loaded.value != config.keyId {
        return Failure(ConfigurationMismatch);
      }
      var ok := Step(node.(intent := None));
      if !ok {
        return Failure(Unavailable);
      }
      r := Success(ManagedIdentity(config.credentialId, Loaded, config.keyId));
    }

    /** Reads a secret; the store may be unreachable. */
    method Load(id: CredentialId) returns (r: Result<KeyId, IdentityError>)
      modifies `live, `faults
      ensures faults >= old(faults)
      ensures live ==> old(live)
      ensures faults == old(faults) ==>
        live == old(live) && r == if id in node.secrets then Success(node.secrets[id]) else Failure(Missing)
      ensures faults > old(faults) ==> r == Failure(Unavailable)
    {
      var fault: bool, crash: bool := *, *;
      live := live && !crash;
      if fault || !live {
        faults := faults + 1;
        return Failure(Unavailable);
      }
      r := if id in node.secrets then Success(node.secrets[id]) else Failure(Missing);
    }

    /** A fresh random credential id, recorded before anything is created under it. */
    method CreateIntent(id: CredentialId) returns (ok: bool)
      requires node.config.None? && node.intent.None? && id !in node.secrets
      modifies `node, `live, `faults
      ensures faults >= old(faults)
      ensures Coherent(old(node)) ==> Advances(old(node), node)
      ensures ok <==> faults == old(faults)
      ensures ok ==> node.intent == Some(id) && node.config.None? && live
      ensures live ==> old(live)
      ensures ok ==> node.secrets == old(node).secrets && node.enrolled == old(node).enrolled
    {
      ok := Step(node.(intent := Some(id)));
    }

    method FinishEnrollment(generated: KeyId) returns (r: Result<ManagedIdentity, IdentityError>)
      requires node.config.None? && node.intent.Some?
      modifies `node, `live, `faults
      ensures faults >= old(faults)
      ensures faults > old(faults) ==> r == Failure(Unavailable)
      ensures r.Success? ==> Reports(node, r.value) && node.intent == None
      ensures Coherent(old(node)) ==>
        && Advances(old(node), node)
        && (r.Success? ==>
              && node.intent.None?
              && node.config == Some(SigningConfig(r.value.credentialId, r.value.keyId))
              && r.value.disposition == NextDisposition(old(node)))
        && (faults == old(faults) ==> r.Success?)
    {
      var id := node.intent.value;
      var disposition := Recovered;
      var loaded := Load(id);
      if loaded == Failure(Missing) {
        loaded := EnrollExclusive(id, generated);
        disposition := Enrolled;
      }
      if loaded.Failure? {
        return Failure(loaded.error);
      }
      var ok := Step(node.(config := Some(SigningConfig(id, loaded.value))));
      if !ok {
        return Failure(Unavailable);
      }
      ok := Step(node.(intent := None));
      if !ok {
        return Failure(Unavailable);
      }
      r := Success(ManagedIdentity(id, disposition, loaded.value));
    }

    method EnrollExclusive(id: CredentialId, generated: KeyId) returns (r: Result<KeyId, IdentityError>)
      modifies `node, `live, `faults
      ensures faults >= old(faults)
      ensures node.intent == old(node).intent && node.config == old(node).config
      ensures Coherent(old(node)) && old(node).config.None? && old(node).intent == Some(id) ==> Advances(old(node), node)
      ensures faults > old(faults) ==> r == Failure(Unavailable)
      ensures r.Success? ==> r.value == generated
      ensures faults == old(faults) && id in old(node).secrets ==> r == Failure(AlreadyEnrolled) && node == old(node)
      ensures r.Success? ==> id in node.secrets && r.value == node.secrets[id] && live
      ensures r.Success? ==> id !in old(node).secrets
      ensures live ==> old(live)
      ensures r.Failure? ==> r.error != Missing || id !in node.secrets
      ensures faults == old(faults) && id !in old(node).secrets ==> r.Success?
    {
      var existing := Load(id);
      if existing.Success? {
        return Failure(AlreadyEnrolled);
      }
      if existing.error != Missing {
        return existing;
      }
      var ok := Step(node.(secrets := node.secrets[id := generated], enrolled := node.enrolled + [id]));
      if !ok {
        return Failure(Unavailable);
      }
      r := Load(id);
      if r.Success? && r.value != generated {
        r := Failure(EnrollmentRace);
      }
    }

    /** Reports the state; writes no credential, intent or configuration. */
    method Status() returns (r: Result<IdentityState, IdentityError>)
      modifies `live, `faults
      ensures faults >= old(faults)
      ensures faults > old(faults) ==> r == Failure(Unavailable)
      ensures node.config != None ==>
        var fault := Fault(node, node.config.value);
        && (fault.Some? ==> r.Failure?)
        && (faults == old(faults) ==> if fault.Some? then r == Failure(fault.value) else r.Success? && r.value.Ready?)
      ensures faults == old(faults) && node.config == None ==>
        r == Success(if node.intent == None then NotEnrolled
                     else if node.intent.value in node.secrets then RecoveryPending(node.secrets[node.intent.value])
                     else EnrollmentPending)
      ensures r.Success? && r.value.Ready? ==>
        node.config != None && Reports(node, ManagedIdentity(node.config.value.credentialId, Loaded, r.value.keyId))
      ensures Coherent(node) && r.Success? ==>
        && (r.value.NotEnrolled? ==> node.config.None? && node.intent.None?)
        && (r.value.EnrollmentPending? ==> node.config.None? && node.intent.Some? && Identity(node).None?)
        && (r.value.RecoveryPending? ==>
              node.config.None? && node.intent.Some? && Identity(node) == Some((node.intent.value, r.value.keyId)))
        && (r.value.Ready? ==> node.config.Some? && Identity(node) == Some((node.config.value.credentialId, r.value.keyId)))
      ensures Coherent(node) ==> IsCall(Call(old(node), node, if r.Success? then ReportedKey(r.value) else None))
      ensures faults == old(faults) && Coherent(node) ==> r.Success?
    {
      if node.config.Some? {
        var config := node.config.value;
        var loaded := Load(config.credentialId);
        if loaded.Failure? {
          return Failure(loaded.error);
        }
        if loaded.value != config.keyId {
          return Failure(ConfigurationMismatch);
        }
        return Success(Ready(config.keyId));
      }
      if node.intent.None? {
        return Success(NotEnrolled);
      }
      var loaded := Load(node.intent.value);
      if loaded.Success? {
        return Success(RecoveryPending(loaded.value));
      }
      if loaded.error == Missing {
        return Success(EnrollmentPending);
      }
      r := Failure(loaded.error);
    }

    /** `load_ready`: only a committed identity, and nothing is written. */
    method LoadReady() returns (r: Result<ManagedIdentity, IdentityError>)
      modifies `live, `faults
      ensures faults >= old(faults)
      ensures faults > old(faults) ==> r == Failure(Unavailable)
      ensures node.config != None ==>
        var fault := Fault(node, node.config.value);
        && (fault.Some? ==> r.Failure?)
        && (faults == old(faults) ==> if fault.Some? then r == Failure(fault.value) else r.Success?)
      ensures node.config == None ==> r == Failure(Missing)
      ensures r.Success? ==> Reports(node, r.value) && r.value.disposition == Loaded
      ensures Coherent(node) && r.Success? ==> Identity(node) == Some((r.value.credentialId, r.value.keyId))
      ensures Coherent(node) ==> IsCall(Call(old(node), node, if r.Success? then Some(r.value.keyId) else None))
      ensures faults == old(faults) && Coherent(node) ==> (r.Success? <==> node.config.Some?)
    {
      if node.config.None? {
        return Failure(Missing);
      }
      var config := node.config.value;
      var loaded := Load(config.credentialId);
      if loaded.Failure? {
        return Failure(loaded.error);
      }
      if loaded.value != config.keyId {
        return Failure(ConfigurationMismatch);
      }
      r := Success(ManagedIdentity(config.credentialId, Loaded, config.keyId));
    }
  }

  /******* Any sequence of calls *******/

  /** A call as its caller saw it: the node before and after, and the key id it reported. */
  datatype Call = Call(before: Node, after: Node, reported: Option<KeyId>)

  /** The key id that a status report names, if it names one. */
  function ReportedKey(state: IdentityState): Option<KeyId> {
    match state
    case RecoveryPending(keyId) => Some(keyId)
    case Ready(keyId) => Some(keyId)
    case _ => None
  }

  /** What every kind of call, interrupted or not, does; the methods above promise it. */
  ghost predicate IsCall(c: Call) {
    && Advances(c.before, c.after)
    && (c.reported.Some? ==> Identity(c.after).Some? && Identity(c.after).value.1 == c.reported.value)
  }

  ghost predicate IsHistory(calls: seq<Call>) {
    && (forall i | 0 <= i < |calls| :: IsCall(calls[i]))
    && (forall i | 0 <= i < |calls| - 1 :: calls[i + 1].before == calls[i].after)
  }

  lemma {:induction false} IdentityIsStable(calls: seq<Call>, i: nat, j: nat)
    requires IsHistory(calls) && i <= j < |calls| && Identity(calls[i].after).Some?
    ensures Identity(calls[j].after) == Identity(calls[i].after)
    decreases j - i
  {
    if i < j {
      IdentityIsStable(calls, i, j - 1);
      assert IsCall(calls[j]) && calls[j].before == calls[j - 1].after;
    }
  }

  /** Over every sequence of enrol, status and load calls, interrupted at any step, all that
      succeed report the same key id, and no more than one credential is ever created. */
  lemma OneIdentityForever(calls: seq<Call>, i: nat, j: nat)
    requires IsHistory(calls) && i <= j < |calls|
    requires calls[i].reported.Some? && calls[j].reported.Some?
    ensures calls[i].reported == calls[j].reported
    ensures |calls[j].after.enrolled| == 1
  {
    assert IsCall(calls[i]) && IsCall(calls[j]);
    IdentityIsStable(calls, i, j);
  }
}
