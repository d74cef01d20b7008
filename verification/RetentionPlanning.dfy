/** Which backups a retention run deletes: policy, inventory order and plan. */
module RetentionPlanning {
  import opened Wrappers
  import opened Ordering
  import opened Timestamps
  import opened RetentionDisk

  datatype RetentionPolicy = RetentionPolicy(maxBackups: nat, minimumBackups: nat)

  datatype PolicyError = EmptyRepositoryAllowed | MinimumExceedsMaximum

  /** A policy keeps at least one backup and never asks for more than it keeps. */
  function NewPolicy(maxBackups: nat, minimumBackups: nat): (r: Result<RetentionPolicy, PolicyError>)
    ensures r.Success? <==> maxBackups >= 1 && minimumBackups <= maxBackups
    ensures r.Failure? ==> r.error == if maxBackups < 1 then EmptyRepositoryAllowed else MinimumExceedsMaximum
    ensures r.Success? ==>
      ValidPolicy(r.value) && r.value.maxBackups == maxBackups && r.value.minimumBackups == minimumBackups
  {
    if maxBackups == 0 then Failure(EmptyRepositoryAllowed)
    else if minimumBackups > maxBackups then Failure(MinimumExceedsMaximum)
    else Success(RetentionPolicy(maxBackups, minimumBackups))
  }

  predicate ValidPolicy(p: RetentionPolicy) { 1 <= p.maxBackups && p.minimumBackups <= p.maxBackups }

  datatype TrustedBackup = TrustedBackup(backupId: BackupId, sealedAt: string)

  /** The inventory order: sealing time as a string, then identifier. */
  predicate InventoryLe(left: TrustedBackup, right: TrustedBackup) {
    if left.sealedAt != right.sealedAt then StringLe(left.sealedAt, right.sealedAt)
    else StringLe(left.backupId, right.backupId)
  }

  datatype PlanBody = PlanBody(
    repositoryId: string, policy: RetentionPolicy, snapshot: seq<TrustedBackup>, deleteIds: seq<BackupId>)

  datatype RetentionPlan = RetentionPlan(planId: PlanId, body: PlanBody)

  function Ids(backups: seq<TrustedBackup>): (ids: seq<BackupId>)
    ensures |ids| == |backups| && forall i | 0 <= i < |ids| :: ids[i] == backups[i].backupId
  {
    seq(|backups|, i requires 0 <= i < |backups| => backups[i].backupId)
  }

  function DeleteCount(policy: RetentionPolicy, snapshot: seq<TrustedBackup>): nat {
    if |snapshot| > policy.maxBackups then |snapshot| - policy.maxBackups else 0
  }

  /** `digest` stands for the SHA-256 of the serialised plan body. */
  function BuildRetentionPlan(
    digest: PlanBody -> PlanId, repositoryId: string, policy: RetentionPolicy, snapshot: seq<TrustedBackup>
  ): Option<RetentionPlan> {
    var deleteCount := DeleteCount(policy, snapshot);
    if deleteCount > 0 && |snapshot| - deleteCount < policy.minimumBackups then None
    else
      var body := PlanBody(repositoryId, policy, snapshot, Ids(snapshot[..deleteCount]));
      Some(RetentionPlan(digest(body), body))
  }

  /** A plan is bound to everything it was made from: its identifier is the digest of a body that
      records repository, policy, snapshot and delete list.  There is none exactly when a policy
      would delete backups that its own minimum protects. */
  lemma PlanRecordsItsInputs(
    digest: PlanBody -> PlanId, repositoryId: string, policy: RetentionPolicy, snapshot: seq<TrustedBackup>)
    ensures var plan := BuildRetentionPlan(digest, repositoryId, policy, snapshot);
      && (plan.None? <==> |snapshot| > policy.maxBackups && policy.maxBackups < policy.minimumBackups)
      && (plan.Some? ==>
            && plan.value.planId == digest(plan.value.body) && plan.value.body.repositoryId == repositoryId
            && plan.value.body.policy == policy && plan.value.body.snapshot == snapshot
            && |plan.value.body.deleteIds| == (if |snapshot| > policy.maxBackups then |snapshot| - policy.maxBackups else 0)
            && forall i | 0 <= i < |plan.value.body.deleteIds| :: plan.value.body.deleteIds[i] == snapshot[i].backupId)
  {
  }

  /** The backups of the snapshot that are not in the delete list. */
  function Retained(snapshot: seq<TrustedBackup>, deleteIds: seq<BackupId>): seq<TrustedBackup> {
    if snapshot == [] then []
    else if snapshot[0].backupId in deleteIds then Retained(snapshot[1..], deleteIds)
    else [snapshot[0]] + Retained(snapshot[1..], deleteIds)
  }

  predicate DistinctIds(backups: seq<TrustedBackup>) {
    forall i, j | 0 <= i < j < |backups| :: backups[i].backupId != backups[j].backupId
  }

  lemma InventoryLeIsTotalOrder()
    ensures TotalOrder(InventoryLe)
  {
    forall x: TrustedBackup, y: TrustedBackup
      ensures InventoryLe(x, y) || InventoryLe(y, x)
      ensures InventoryLe(x, y) && InventoryLe(y, x) ==> x == y
    {
      StringLeTotal(x.sealedAt, y.sealedAt);
      StringLeTotal(x.backupId, y.backupId);
    }
    forall x: TrustedBackup, y: TrustedBackup, z: TrustedBackup | InventoryLe(x, y) && InventoryLe(y, z)
      ensures InventoryLe(x, z)
    {
      StringLeTotal(x.sealedAt, y.sealedAt);
      StringLeTotal(y.sealedAt, z.sealedAt);
      if x.sealedAt == y.sealedAt == z.sealedAt {
        StringLeTransitive(x.backupId, y.backupId, z.backupId);
      } else if x.sealedAt != y.sealedAt && y.sealedAt != z.sealedAt {
        StringLeTransitive(x.sealedAt, y.sealedAt, z.sealedAt);
      }
    }
  }

  lemma DistinctSurvivesReordering(s: seq<TrustedBackup>, t: seq<TrustedBackup>)
    requires DistinctIds(s) && multiset(s) == multiset(t)
    ensures DistinctIds(t)
  {
    SameMultisetSameElements(s, t);
    NoRepeatsSurvivesReordering(s, t);
    forall i, j | 0 <= i < j < |t| ensures t[i].backupId != t[j].backupId {
      assert t[i] in s && t[j] in s;
    }
  }

  lemma {:induction false} RetainedIsTail(s: seq<TrustedBackup>, k: nat, all: seq<TrustedBackup>, n: nat)
    requires DistinctIds(all) && n <= |all| && k <= n && s == all[k..]
    ensures Retained(s, Ids(all[..n])) == all[n..]
    decreases |all| - k
  {
    if s != [] {
      assert s[1..] == all[k + 1..];
      if k < n {
        assert Ids(all[..n])[k] == s[0].backupId;
        RetainedIsTail(s[1..], k + 1, all, n);
      } else {
        assert s[0].backupId !in Ids(all[..n]);
        RetainedAllOf(s, all, n);
      }
    }
  }

  lemma {:induction false} RetainedAllOf(s: seq<TrustedBackup>, all: seq<TrustedBackup>, n: nat)
    requires DistinctIds(all) && n <= |all| && |s| <= |all| - n && s == all[|all| - |s|..]
    ensures Retained(s, Ids(all[..n])) == s
  {
    if s != [] {
      assert s[0] == all[|all| - |s|] && s[1..] == all[|all| - |s| + 1..];
      RetainedAllOf(s[1..], all, n);
      assert s[0].backupId !in Ids(all[..n]);
    }
  }

  /** The order retention promises: earlier in time, or the same moment and a smaller id. */
  ghost predicate OlderThan(a: TrustedBackup, b: TrustedBackup)
    requires IsUtcTimestamp(a.sealedAt) && IsUtcTimestamp(b.sealedAt)
  {
    || Instant(a.sealedAt) < Instant(b.sealedAt)
    || (Instant(a.sealedAt) == Instant(b.sealedAt) && StringLe(a.backupId, b.backupId))
  }

  /** The delete list is exactly the chronologically oldest surplus.  `inventory` is the
      listing in whatever order the directory was read. */
  lemma DeletesTheOldest(
    digest: PlanBody -> PlanId, repositoryId: string, policy: RetentionPolicy, inventory: seq<TrustedBackup>)
    requires ValidPolicy(policy) && DistinctIds(inventory)
    requires forall b | b in inventory :: IsUtcTimestamp(b.sealedAt)
    ensures var snapshot := Sort(InventoryLe, inventory);
      var plan := BuildRetentionPlan(digest, repositoryId, policy, snapshot);
      var k := DeleteCount(policy, snapshot);
      && plan.Some?
      && var deleteIds := plan.value.body.deleteIds;
         var retained := Retained(snapshot, deleteIds);
         && |deleteIds| == k && |retained| == (if |inventory| < policy.maxBackups then |inventory| else policy.maxBackups)
         && (k > 0 ==> |retained| >= policy.minimumBackups)
         && multiset(snapshot[..k]) + multiset(retained) == multiset(inventory)
         && !HasDuplicateIds(deleteIds)
         && forall a, b | a in inventory && b in inventory && a.backupId in deleteIds && b.backupId !in deleteIds ::
              OlderThan(a, b)
  {
    var snapshot := Sort(InventoryLe, inventory);
    SnapshotOf(inventory);
    DeletesAPrefix(digest, repositoryId, policy, snapshot);
    DeletedAreOlder(snapshot, DeleteCount(policy, snapshot));
  }

  lemma SnapshotOf(inventory: seq<TrustedBackup>)
    requires DistinctIds(inventory)
    ensures var snapshot := Sort(InventoryLe, inventory);
      && Sorted(InventoryLe, snapshot) && DistinctIds(snapshot) && |snapshot| == |inventory|
      && forall b :: b in snapshot <==> b in inventory
  {
    InventoryLeIsTotalOrder();
    SortIsSorted(InventoryLe, inventory);
    SameMultisetSameElements(Sort(InventoryLe, inventory), inventory);
    DistinctSurvivesReordering(inventory, Sort(InventoryLe, inventory));
  }

  lemma DeletedAreOlder(snapshot: seq<TrustedBackup>, k: nat)
    requires Sorted(InventoryLe, snapshot) && DistinctIds(snapshot) && k <= |snapshot|
    requires forall b | b in snapshot :: IsUtcTimestamp(b.sealedAt)
    ensures var ids := Ids(snapshot[..k]);
      forall a, b | a in snapshot && b in snapshot && a.backupId in ids && b.backupId !in ids :: OlderThan(a, b)
  {
    var ids := Ids(snapshot[..k]);
    forall a, b | a in snapshot && b in snapshot && a.backupId in ids && b.backupId !in ids ensures OlderThan(a, b) {
      DeletedIsOlder(snapshot, k, a, b);
    }
  }

  /** The plan takes the first `DeleteCount` entries of its snapshot and retains the others. */
  lemma DeletesAPrefix(
    digest: PlanBody -> PlanId, repositoryId: string, policy: RetentionPolicy, snapshot: seq<TrustedBackup>)
    requires ValidPolicy(policy) && DistinctIds(snapshot)
    ensures var plan := BuildRetentionPlan(digest, repositoryId, policy, snapshot);
      var k := DeleteCount(policy, snapshot);
      && plan.Some? && plan.value.body.deleteIds == Ids(snapshot[..k]) && !HasDuplicateIds(Ids(snapshot[..k]))
      && Retained(snapshot, Ids(snapshot[..k])) == snapshot[k..]
      && multiset(snapshot[..k]) + multiset(snapshot[k..]) == multiset(snapshot)
  {
    var k := DeleteCount(policy, snapshot);
    assert snapshot[0..] == snapshot;
    RetainedIsTail(snapshot, 0, snapshot, k);
    assert snapshot == snapshot[..k] + snapshot[k..];
  }

  lemma DeletedIsOlder(snapshot: seq<TrustedBackup>, k: nat, a: TrustedBackup, b: TrustedBackup)
    requires Sorted(InventoryLe, snapshot) && DistinctIds(snapshot) && k <= |snapshot|
    requires a in snapshot && b in snapshot && IsUtcTimestamp(a.sealedAt) && IsUtcTimestamp(b.sealedAt)
    requires a.backupId in Ids(snapshot[..k]) && b.backupId !in Ids(snapshot[..k])
    ensures OlderThan(a, b)
  {
    var ids := Ids(snapshot[..k]);
    var i :| 0 <= i < |snapshot| && snapshot[i] == a;
    var j :| 0 <= j < |snapshot| && snapshot[j] == b;
    var i' :| 0 <= i' < k && ids[i'] == a.backupId;
    assert snapshot[i'].backupId == a.backupId;
    assert i == i';
    assert forall n | 0 <= n < k :: snapshot[n].backupId in ids by {
      assert forall n | 0 <= n < k :: ids[n] == snapshot[n].backupId;
    }
    assert InventoryLe(snapshot[i], snapshot[j]);
    StringOrderIsTimeOrder(a.sealedAt, b.sealedAt);
  }

  /** The plan does not depend on the order in which the directory was listed. */
  lemma PlanIgnoresListingOrder(inventory: seq<TrustedBackup>, relisted: seq<TrustedBackup>)
    requires multiset(inventory) == multiset(relisted)
    ensures Sort(InventoryLe, inventory) == Sort(InventoryLe, relisted)
  {
    InventoryLeIsTotalOrder();
    SortIsSorted(InventoryLe, inventory);
    SortIsSorted(InventoryLe, relisted);
    SortedIsUnique(InventoryLe, Sort(InventoryLe, inventory), Sort(InventoryLe, relisted));
  }
}
