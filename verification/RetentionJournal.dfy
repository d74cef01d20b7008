/** The retention transaction and its crash recovery, as operations on a repository whose
    every system call may fail or be the last one before a crash. */
module RetentionJournal {
  import opened Wrappers
  import opened Ordering
  import opened Timestamps
  import opened RetentionDisk
  import opened RetentionPlanning

  datatype RepositoryError =
    | Io | AuditConflict | RecoveryRequired | CleanupPending | UnsafeFilesystemEntry
    | RepositoryMismatch | SnapshotChanged | ConfirmationMismatch | IntegrityFailure

  datatype Outcome = Ok | Err(error: RepositoryError)

  /******* Single filesystem effects *******/

  function PutJournal(d: Disk, name: string, node: Node): Disk {
    d.(quarantine := d.quarantine[name := node])
  }

  function DropJournal(d: Disk, name: string): Disk {
    d.(quarantine := d.quarantine - {name})
  }

  function PutAudit(d: Disk, name: string, node: Node): Disk {
    d.(audit := d.audit[name := node])
  }

  function SetTrash(d: Disk, p: string, entries: map<BackupId, Node>): Disk {
    PutJournal(d, TrashName(p), Dir(entries))
  }

  function MovedOut(d: Disk, p: string, id: BackupId): Disk
    requires id in d.backups
  {
    SetTrash(d, p, TrashEntries(d, p)[id := d.backups[id]]).(backups := d.backups - {id})
  }

  function MovedBack(d: Disk, p: string, id: BackupId): Disk
    requires id in TrashEntries(d, p)
  {
    SetTrash(d, p, TrashEntries(d, p) - {id}).(backups := d.backups[id := TrashEntries(d, p)[id]])
  }

  predicate HasTrash(d: Disk, p: string) {
    TrashName(p) in d.quarantine && d.quarantine[TrashName(p)].Dir?
  }

  predicate OnlyFileAt(d: Disk, name: string) {
    name in d.quarantine ==> d.quarantine[name].RegularFile?
  }

  predicate HasEmptyOrNoTrash(d: Disk, p: string) {
    TrashName(p) in d.quarantine ==> d.quarantine[TrashName(p)] == Dir(map[])
  }

  /** rename(2) replaces an absent target or an empty directory. */
  predicate CanReplace(entries: map<string, Node>, name: string) {
    name in entries ==> entries[name] == Dir(map[])
  }

  /** Nothing but the journal and the audit records of plan `p` differs outside `backups/`. */
  ghost predicate TouchesOnly(d: Disk, e: Disk, p: string) {
    && e.repositoryId == d.repositoryId
    && e.quarantine - JournalNames(p) == d.quarantine - JournalNames(p)
    && e.audit - {ApprovedName(p), CompletedName(p)} == d.audit - {ApprovedName(p), CompletedName(p)}
    && d.audit.Keys <= e.audit.Keys
  }

  /******* Audit records *******/

  function RecordName(state: AuditState, p: string): string {
    match state
    case Approved => ApprovedName(p)
    case Completed => CompletedName(p)
  }

  /** The audit records after `state` of plan `p` over `ids` was recorded in repository `d`. */
  function Recorded(d: Disk, audit: map<string, Node>, state: AuditState, p: string, ids: seq<BackupId>): map<string, Node> {
    audit[RecordName(state, p) := RegularFile(AuditDoc(state, p, d.repositoryId, ids))]
  }

  /** Recording goes from `a` to `b`: not at all, cut short, or whole; never over another record. */
  predicate IsRecording(
    d: Disk, a: map<string, Node>, state: AuditState, p: string, ids: seq<BackupId>, b: map<string, Node>)
  {
    b == a ||
    (RecordName(state, p) !in a &&
     (b == a[RecordName(state, p) := RegularFile(Partial)] || b == Recorded(d, a, state, p, ids)))
  }

  /** What a recovery of decided plan `p` does to the audit records: the completion is recorded
      with the plan's own list, unless a record is there already. */
  ghost predicate CompletionRecorded(d: Disk, p: string, ids: seq<BackupId>, e: Disk, ok: bool) {
    && IsRecording(d, d.audit, Completed, p, ids, e.audit)
    && (ok ==> e.audit == if CompletedName(p) in d.audit then d.audit else Recorded(d, d.audit, Completed, p, ids))
  }

  /** ... and an undecided one none at all. */
  ghost predicate RecoveryRecorded(d: Disk, p: string, ids: seq<BackupId>, e: Disk, ok: bool) {
    if MarkerName(p) in d.quarantine then CompletionRecorded(d, p, ids, e, ok) else e.audit == d.audit
  }

  /** What a run of plan `p` does: first the approval is recorded, then the completion. */
  ghost predicate RunRecorded(d: Disk, p: string, ids: seq<BackupId>, e: Disk) {
    || IsRecording(d, d.audit, Approved, p, ids, e.audit)
    || (ApprovedName(p) !in d.audit &&
        IsRecording(d, Recorded(d, d.audit, Approved, p, ids), Completed, p, ids, e.audit))
  }

  /******* Effect of one step on the logical view *******/

  /** Rewriting the trash directory leaves everything else alone. */
  lemma TrashRewritten(d: Disk, p: string, entries: map<BackupId, Node>)
    ensures var e := SetTrash(d, p, entries);
      && e.quarantine - {TrashName(p)} == d.quarantine - {TrashName(p)}
      && TouchesOnly(d, e, p) && TrashEntries(e, p) == entries
  {
    var e := SetTrash(d, p, entries);
    assert e.quarantine - {TrashName(p)} == d.quarantine - {TrashName(p)};
    assert e.quarantine - JournalNames(p) == d.quarantine - JournalNames(p);
  }

  /** Removing a trashed backup, completely or in part, is invisible once the deletion is decided. */
  lemma RemovalKeepsView(d: Disk, e: Disk, p: string, ids: seq<BackupId>, id: BackupId, v: View)
    requires TrashIsExpected(d, p, ids) && id in TrashEntries(d, p)
    requires
      || e == d
      || e == SetTrash(d, p, TrashEntries(d, p) - {id})
      || exists rest :: e == SetTrash(d, p, TrashEntries(d, p)[id := Dir(rest)])
    ensures e.quarantine - {TrashName(p)} == d.quarantine - {TrashName(p)}
    ensures TouchesOnly(d, e, p) && e.audit == d.audit && e.backups == d.backups
    ensures TrashIsExpected(e, p, ids) && TrashEntries(e, p).Keys <= TrashEntries(d, p).Keys
    ensures v.Resolved? && v.plan == p && v.ids == ids && Shows(d, v) ==> Shows(e, v)
  {
    if e != d {
      TrashRewritten(d, p, TrashEntries(e, p));
      if v.Resolved? && v.plan == p && v.ids == ids && Shows(d, v) {
        JournalNamesDiffer(p);
        SameJournalBesides(d, e, p);
        assert HasIntent(e, p, ids) && OnlyRunsBesides(e, JournalNames(p));
      }
    }
  }

  /** Moving a trashed backup back is invisible while the deletion is undecided. */
  lemma MoveBackKeepsView(d: Disk, e: Disk, p: string, ids: seq<BackupId>, id: BackupId, v: View)
    requires TrashIsExpected(d, p, ids) && EachInOnePlace(d, p, ids) && id in TrashEntries(d, p)
    requires e == d || e == MovedBack(d, p, id)
    ensures TouchesOnly(d, e, p)
    ensures TrashIsExpected(e, p, ids) && EachInOnePlace(e, p, ids)
    ensures TrashEntries(e, p).Keys <= TrashEntries(d, p).Keys
    ensures v.Pending? && v.plan == p && v.ids == ids && Shows(d, v) ==> Shows(e, v)
  {
    JournalNamesDiffer(p);
    assert TrashName(p) in d.quarantine;
    if e != d {
      assert TrashEntries(e, p) == TrashEntries(d, p) - {id};
      assert d.backups + TrashEntries(d, p) == e.backups + TrashEntries(e, p);
    }
  }

  /** From `d`, some part of the trash of plan `p` was removed, giving `e`. */
  ghost predicate IsEmptying(d: Disk, p: string, ids: seq<BackupId>, e: Disk) {
    && e == d.(quarantine := e.quarantine)
    && e.quarantine - {TrashName(p)} == d.quarantine - {TrashName(p)}
    && (TrashName(p) in e.quarantine ==> TrashName(p) in d.quarantine)
    && TrashIsExpected(e, p, ids)
  }

  lemma OneRemoved(d: Disk, p: string, ids: seq<BackupId>, m: Disk, id: BackupId, e: Disk)
    requires IsEmptying(d, p, ids, m) && id in TrashEntries(m, p)
    requires
      || e == m
      || e == SetTrash(m, p, TrashEntries(m, p) - {id})
      || exists rest :: e == SetTrash(m, p, TrashEntries(m, p)[id := Dir(rest)])
    ensures IsEmptying(d, p, ids, e) && TrashEntries(e, p).Keys <= TrashEntries(m, p).Keys
  {
    RemovalKeepsView(m, e, p, ids, id, Idle(map[]));
  }

  lemma EmptyingKeepsView(d: Disk, p: string, ids: seq<BackupId>, e: Disk, v: View)
    requires IsEmptying(d, p, ids, e)
    ensures TouchesOnly(d, e, p)
    ensures v.Resolved? && v.plan == p && v.ids == ids && Shows(d, v) ==> Shows(e, v)
  {
    SameJournalBesides(d, e, p);
    if v.Resolved? && v.plan == p && v.ids == ids && Shows(d, v) {
      JournalNamesAreDistinct(p);
      assert HasIntent(e, p, ids) && OnlyRunsBesides(e, JournalNames(p));
    }
  }

  /** What only differs in the trash directory is the same everywhere else. */
  lemma SameJournalBesides(d: Disk, e: Disk, p: string)
    requires e.quarantine - {TrashName(p)} == d.quarantine - {TrashName(p)}
    ensures e.quarantine - JournalNames(p) == d.quarantine - JournalNames(p)
    ensures forall n | n != TrashName(p) ::
      (n in e.quarantine <==> n in d.quarantine) && (n in d.quarantine ==> e.quarantine[n] == d.quarantine[n])
  {
    forall n | n != TrashName(p)
      ensures (n in e.quarantine <==> n in d.quarantine) && (n in d.quarantine ==> e.quarantine[n] == d.quarantine[n])
    {
      assert n in e.quarantine <==> n in e.quarantine - {TrashName(p)};
      assert n in d.quarantine <==> n in d.quarantine - {TrashName(p)};
    }
  }

  /** From `d`, some of the trashed backups of plan `p` were moved back, giving `e`. */
  ghost predicate IsRestoring(d: Disk, p: string, ids: seq<BackupId>, e: Disk) {
    && e == d.(quarantine := e.quarantine, backups := e.backups)
    && e.quarantine - {TrashName(p)} == d.quarantine - {TrashName(p)}
    && TrashIsExpected(e, p, ids) && EachInOnePlace(e, p, ids)
    && e.backups + TrashEntries(e, p) == d.backups + TrashEntries(d, p)
  }

  lemma OneRestored(d: Disk, p: string, ids: seq<BackupId>, m: Disk, id: BackupId, e: Disk)
    requires IsRestoring(d, p, ids, m) && id in TrashEntries(m, p)
    requires e == m || e == MovedBack(m, p, id)
    ensures IsRestoring(d, p, ids, e) && TrashEntries(e, p).Keys <= TrashEntries(m, p).Keys
  {
    MoveBackKeepsView(m, e, p, ids, id, Idle(map[]));
    if e != m {
      TrashRewritten(m, p, TrashEntries(e, p));
      assert e.backups + TrashEntries(e, p) == m.backups + TrashEntries(m, p);
    }
  }

  lemma AllRestored(d: Disk, p: string, ids: seq<BackupId>, e: Disk)
    requires IsRestoring(d, p, ids, e) && TrashName(p) !in e.quarantine
    ensures e == d.(backups := d.backups + TrashEntries(d, p), quarantine := d.quarantine - {TrashName(p)})
    ensures forall id | id in ids :: id in e.backups
  {
    assert e.quarantine == e.quarantine - {TrashName(p)};
    assert e.backups == e.backups + TrashEntries(e, p);
  }

  lemma RestoringKeepsView(d: Disk, p: string, ids: seq<BackupId>, e: Disk, v: View)
    requires IsRestoring(d, p, ids, e)
    ensures TouchesOnly(d, e, p)
    ensures v.Pending? && v.plan == p && v.ids == ids && Shows(d, v) ==> Shows(e, v)
  {
    SameJournalBesides(d, e, p);
    if v.Pending? && v.plan == p && v.ids == ids && Shows(d, v) {
      JournalNamesAreDistinct(p);
      assert HasIntent(e, p, ids) && OnlyRunsBesides(e, JournalNames(p));
    }
  }

  /** Moving a backup into the trash is invisible while the deletion is undecided. */
  lemma MoveOutKeepsView(d: Disk, e: Disk, p: PlanId, id: BackupId, v: View)
    requires v.Pending? && v.plan == p && id in v.ids && Shows(d, v) && HasTrash(d, p)
    requires e == d || (id in d.backups && e == MovedOut(d, p, id))
    ensures TouchesOnly(d, e, p)
    ensures Shows(e, v) && HasTrash(e, p)
    ensures e != d ==> TrashEntries(e, p).Keys == TrashEntries(d, p).Keys + {id}
  {
    JournalNamesDiffer(p);
    if e != d {
      assert TrashEntries(e, p) == TrashEntries(d, p)[id := d.backups[id]];
      assert d.backups + TrashEntries(d, p) == e.backups + TrashEntries(e, p);
    }
  }

  /** Writing the intent turns an idle repository into one with a torn or a pending deletion,
      in which every selected backup is still in place. */
  lemma IntentOpens(d: Disk, e: Disk, p: PlanId, ids: seq<BackupId>, c: map<BackupId, Node>)
    requires CanBegin(d, p, ids, c)
    requires e == d || e == PutJournal(d, IntentName(p), RegularFile(Partial))
      || e == PutJournal(d, IntentName(p), RegularFile(IntentDoc(1, p, d.repositoryId, ids)))
    ensures e == PutJournal(d, IntentName(p), RegularFile(Partial)) ==> Shows(e, Torn(p, c))
    ensures e == PutJournal(d, IntentName(p), RegularFile(IntentDoc(1, p, d.repositoryId, ids))) ==>
      Shows(e, Pending(p, ids, c)) && TrashName(p) !in e.quarantine
      && Shows(SetTrash(e, p, map[]), Pending(p, ids, c))
    ensures IntentName(p) !in d.quarantine
  {
    JournalNamesAreDistinct(p);
    if e == PutJournal(d, IntentName(p), RegularFile(IntentDoc(1, p, d.repositoryId, ids))) {
      assert TrashName(p) !in e.quarantine && TrashEntries(e, p) == map[];
      assert e.backups + map[] == e.backups;
      TrashRewritten(e, p, map[]);
    }
  }

  /** The commit point: once every selected backup is in the trash, creating the marker turns
      the pending deletion into a decided one. */
  lemma MarkerDecides(d: Disk, e: Disk, doc: Document, v: View)
    requires v.Pending? && Shows(d, v) && TrashEntries(d, v.plan).Keys == SetOf(v.ids)
    requires e == PutJournal(d, MarkerName(v.plan), RegularFile(doc))
    ensures Shows(e, Resolved(v.plan, v.ids, Without(v.contents, v.ids)))
  {
    JournalNamesAreDistinct(v.plan);
    forall id | id in v.ids ensures id in SetOf(v.ids) && id !in d.backups {
      assert exists i :: 0 <= i < |v.ids| && v.ids[i] == id;
    }
    assert d.backups == Without(v.contents, v.ids);
  }

  /******* Plans and inventories *******/

  datatype RetentionOutcome = RetentionOutcome(deletedBackups: int, retainedBackups: int)

  function ConfirmationPhrase(plan: RetentionPlan): string {
    "DELETE " + Decimal(|plan.body.deleteIds|) + " BACKUPS " + plan.planId
  }

  /** Typing the phrase of one plan confirms no plan with another count or another identifier. */
  lemma PhraseNamesThePlan(plan: RetentionPlan, other: RetentionPlan)
    requires ConfirmationPhrase(plan) == ConfirmationPhrase(other)
    ensures |plan.body.deleteIds| == |other.body.deleteIds| && plan.planId == other.planId
  {
    PhraseParts(plan);
    PhraseParts(other);
    DecimalReadsBack(|plan.body.deleteIds|);
    DecimalReadsBack(|other.body.deleteIds|);
  }

  lemma PhraseParts(plan: RetentionPlan)
    ensures var phrase := ConfirmationPhrase(plan);
      && |phrase| >= 80 && phrase[|phrase| - 64..] == plan.planId
      && phrase[7..|phrase| - 73] == Decimal(|plan.body.deleteIds|)
  {
    var phrase, count := ConfirmationPhrase(plan), Decimal(|plan.body.deleteIds|);
    assert phrase == "DELETE " + count + " BACKUPS " + plan.planId;
    DecimalReadsBack(|plan.body.deleteIds|);
    assert |phrase| == 7 + |count| + 9 + 64;
  }

  predicate InspectsAs(backups: map<BackupId, Node>, verify: (BackupId, Node) -> Option<string>, id: BackupId) {
    id in backups && backups[id].Dir? && IsIdentifier(id) && verify(id, backups[id]).Some?
  }

  predicate Trusted(backups: map<BackupId, Node>, verify: (BackupId, Node) -> Option<string>, b: TrustedBackup) {
    InspectsAs(backups, verify, b.backupId) && verify(b.backupId, backups[b.backupId]) == Some(b.sealedAt)
  }

  ghost predicate AllTrusted(backups: map<BackupId, Node>, verify: (BackupId, Node) -> Option<string>) {
    forall id | id in backups :: InspectsAs(backups, verify, id)
  }

  /** `inventory` lists every backup once, in inventory order, and all of them are trusted. */
  ghost predicate Inventoried(
    backups: map<BackupId, Node>, verify: (BackupId, Node) -> Option<string>, inventory: seq<TrustedBackup>)
  {
    && AllTrusted(backups, verify)
    && |inventory| == |backups.Keys| && DistinctIds(inventory) && Sorted(InventoryLe, inventory)
    && forall b :: b in inventory <==> Trusted(backups, verify, b)
  }

  /** The inventory of a repository is unique, however its directory is listed. */
  lemma InventoryIsUnique(
    backups: map<BackupId, Node>, verify: (BackupId, Node) -> Option<string>,
    one: seq<TrustedBackup>, two: seq<TrustedBackup>)
    requires Inventoried(backups, verify, one) && Inventoried(backups, verify, two)
    ensures one == two
  {
    SameDistinctElements(one, two);
    InventoryLeIsTotalOrder();
    SortedIsUnique(InventoryLe, one, two);
  }

  /** The plan is what planning yields for the backups now present. */
  ghost predicate IsCurrentPlan(
    d: Disk, plan: RetentionPlan, verify: (BackupId, Node) -> Option<string>, digest: PlanBody -> PlanId)
  {
    exists inventory ::
      && Inventoried(d.backups, verify, inventory)
      && BuildRetentionPlan(digest, d.repositoryId, plan.body.policy, inventory) == Some(plan)
  }

  /** The plan's snapshot is the inventory as it is now, and its identifier the digest of a body
      that holds this snapshot and this repository's identifier. */
  ghost predicate IsBound(
    d: Disk, plan: RetentionPlan, verify: (BackupId, Node) -> Option<string>, digest: PlanBody -> PlanId)
  {
    && Inventoried(d.backups, verify, plan.body.snapshot)
    && plan.planId == digest(plan.body) && plan.body.repositoryId == d.repositoryId
  }

  /** Why a plan is refused before anything is touched, in this order. */
  ghost function Objection(
    d: Disk, plan: RetentionPlan, confirmation: string,
    verify: (BackupId, Node) -> Option<string>, digest: PlanBody -> PlanId): Option<RepositoryError>
  {
    var policy := plan.body.policy;
    if plan.body.repositoryId != d.repositoryId then Some(RepositoryMismatch)
    else if !AllTrusted(d.backups, verify) then Some(IntegrityFailure)
    else if |d.backups| > policy.maxBackups && policy.maxBackups < policy.minimumBackups then Some(IntegrityFailure)
    else if !IsCurrentPlan(d, plan, verify, digest) then Some(SnapshotChanged)
    else if plan.body.deleteIds != [] && confirmation != ConfirmationPhrase(plan) then Some(ConfirmationMismatch)
    else None
  }

  /** What executing `plan` may do to an idle repository with contents `c`. */
  ghost predicate Executed(d: Disk, plan: RetentionPlan, c: map<BackupId, Node>, e: Disk, ok: bool) {
    && TouchesOnly(d, e, plan.planId)
    && RunState(e, plan.planId, plan.body.deleteIds, c)
    && (ok ==> Shows(e, Idle(Without(c, plan.body.deleteIds))))
    && (e != d ==> ApprovedName(plan.planId) in e.audit)
    && RunRecorded(d, plan.planId, plan.body.deleteIds, e)
  }

  lemma SelectedAreBackups(
    backups: map<BackupId, Node>, verify: (BackupId, Node) -> Option<string>,
    inventory: seq<TrustedBackup>, policy: RetentionPolicy)
    requires Inventoried(backups, verify, inventory)
    ensures var ids := Ids(inventory[..DeleteCount(policy, inventory)]);
      !HasDuplicateIds(ids) && forall id | id in ids :: id in backups && backups[id].Dir?
  {
    var k := DeleteCount(policy, inventory);
    var ids := Ids(inventory[..k]);
    forall id | id in ids ensures id in backups && backups[id].Dir? {
      var i :| 0 <= i < |ids| && ids[i] == id;
      assert inventory[i] in inventory;
    }
  }

  /******* Recovery *******/

  /** The intent `name` can be neither finished nor undone: it is decided and names a backup that
      is there again, or undecided and names one that is nowhere, or in both places. */
  predicate Stranded(d: Disk, name: string) {
    && IsIntentName(name) && name in d.quarantine
    && d.quarantine[name].RegularFile? && d.quarantine[name].doc.IntentDoc?
    && var p, ids := PlanOfIntentName(name), d.quarantine[name].doc.deleteIds;
       if MarkerName(p) in d.quarantine || CompletedName(p) in d.audit
       then exists id :: id in ids && id in d.backups
       else !EachInOnePlace(d, p, ids)
  }

  /** The only open transaction is a stranded one. */
  predicate IsStrandedBy(d: Disk, name: string) {
    Stranded(d, name) && forall n | n in d.quarantine && IsIntentName(n) :: n == name
  }

  /** What working through the intents may do to the repository `d` that shows `v`: it never
      changes the logical contents, and when it succeeds the transaction is over. */
  ghost predicate Resumed(d: Disk, v: View, e: Disk, ok: bool) {
    && (Shows(e, v) || (!v.Torn? && Shows(e, Idle(v.contents))))
    && (if v.Idle? || v.Torn? then e == d else TouchesOnly(d, e, v.plan))
    && (if v.Resolved? then CompletionRecorded(d, v.plan, v.ids, e, ok) else e.audit == d.audit)
    && (ok ==> !v.Torn? && Shows(e, Idle(v.contents)))
  }

  /** ... and a whole reconciliation also checks that no retention name is left. */
  ghost predicate Reconciled(d: Disk, v: View, e: Disk, ok: bool) {
    && Resumed(d, v, e, ok)
    && (ok ==> forall n | n in e.quarantine :: !IsRetentionName(n))
  }

  /******* Several open transactions *******/

  /** A file `name` that says what `RetentionIntent` must say to be acted on. */
  predicate IsWholeIntent(d: Disk, name: string)
    requires IsIntentName(name)
  {
    && IsIdentifier(PlanOfIntentName(name))
    && name in d.quarantine && d.quarantine[name].RegularFile?
    && var doc := d.quarantine[name].doc;
       doc.IntentDoc? && doc == IntentDoc(1, PlanOfIntentName(name), d.repositoryId, doc.deleteIds)
       && doc.deleteIds != [] && !HasDuplicateIds(doc.deleteIds)
  }

  /** What is wrong with the evidence for the deletion of plan `p`: a marker or a record that is no
      file. */
  function Oddity(d: Disk, p: string): Option<RepositoryError> {
    if MarkerName(p) in d.quarantine then
      if d.quarantine[MarkerName(p)].RegularFile? then None else Some(UnsafeFilesystemEntry)
    else if CompletedName(p) in d.audit && !d.audit[CompletedName(p)].RegularFile? then Some(RecoveryRequired)
    else None
  }

  /** The delete list in the intent of plan `p`. */
  function ListedBy(d: Disk, p: string): seq<BackupId> {
    var n := IntentName(p);
    if n in d.quarantine && d.quarantine[n].RegularFile? && d.quarantine[n].doc.IntentDoc?
    then d.quarantine[n].doc.deleteIds else []
  }

  predicate IsDecided(d: Disk, p: string) {
    MarkerName(p) in d.quarantine || CompletedName(p) in d.audit
  }

  /** Plan `p` has a whole intent and is undecided or decided, whatever other plans are open. */
  predicate OpenAt(d: Disk, p: string) {
    && IsHexDigest(p) && HasIntent(d, p, ListedBy(d, p))
    && (CompletedName(p) in d.audit ==> d.audit[CompletedName(p)].RegularFile?)
    && if IsDecided(d, p) then Decided(d, p, ListedBy(d, p)) else Undecided(d, p, ListedBy(d, p))
  }

  /** Plan `p`, open in `d`, was finished or undone, giving `e`. */
  ghost predicate Settled(d: Disk, p: string, e: Disk) {
    && TouchesOnly(d, e, p) && e.quarantine == d.quarantine - JournalNames(p)
    && e.backups == (if IsDecided(d, p) then d.backups else d.backups + TrashEntries(d, p))
    && RecoveryRecorded(d, p, ListedBy(d, p), e, true)
  }

  /** What a round of recovery in which no step fails does about the intent `n`: if it belongs to
      an open plan, that plan is settled. */
  ghost predicate IsRound(d: Disk, n: string, e: Disk, ok: bool)
    requires IsIntentName(n)
  {
    var p := PlanOfIntentName(n);
    n == IntentName(p) && OpenAt(d, p) ==> ok && Settled(d, p, e)
  }

  /** The intents `visited` were worked through one after the other: `disks` are the states in
      between, and all rounds but possibly the last one succeeded. */
  ghost predicate IsPass(d: Disk, visited: seq<string>, disks: seq<Disk>, e: Disk, ok: bool) {
    && |disks| == |visited| + 1 && disks[0] == d && disks[|visited|] == e && NoRepeats(visited)
    && forall i | 0 <= i < |visited| ::
         IsIntentName(visited[i]) && IsRound(disks[i], visited[i], disks[i + 1], ok || i < |visited| - 1)
  }

  function IntentsIn(d: Disk): (names: set<string>)
    ensures forall n | n in names :: IsIntentName(n)
  {
    set n | n in d.quarantine && IsIntentName(n)
  }

  predicate IntentsAreFiles(d: Disk) { forall n | n in IntentsIn(d) :: d.quarantine[n].RegularFile? }

  /** A recovery in which no step fails: one pass over the intents, up to one that is refused or
      through all of them; it succeeds exactly when none is and no retention name is left. */
  ghost predicate IsRecovery(d: Disk, visited: seq<string>, disks: seq<Disk>, passed: bool, e: Disk, ok: bool) {
    && IsPass(d, visited, disks, e, passed) && SetOf(visited) <= IntentsIn(d)
    && (if passed then SetOf(visited) == IntentsIn(d) else visited != [])
    && (ok <==> passed && forall n | n in e.quarantine :: !IsRetentionName(n))
  }

  lemma PassGoesOn(d: Disk, visited: seq<string>, disks: seq<Disk>, e: Disk, n: string, f: Disk, ok: bool)
    requires IsPass(d, visited, disks, e, true) && IsIntentName(n) && n !in visited && IsRound(e, n, f, ok)
    ensures IsPass(d, visited + [n], disks + [f], f, ok)
  {
    var names, states := visited + [n], disks + [f];
    forall i | 0 <= i < |names| ensures IsIntentName(names[i]) && IsRound(states[i], names[i], states[i + 1], ok || i < |names| - 1) {
      if i < |visited| {
        assert IsRound(disks[i], visited[i], disks[i + 1], true);
      }
    }
  }

  /** The only intent file in a repository is the one of its open transaction. */
  lemma OnlyIntent(d: Disk, v: View)
    requires Shows(d, v)
    ensures IntentsIn(d) == if v.Idle? then {} else {IntentName(v.plan)}
    ensures forall n | n in d.quarantine && IsIntentName(n) :: !v.Idle? && n == IntentName(v.plan)
    ensures !v.Idle? ==> d.quarantine[IntentName(v.plan)].RegularFile?
  {
    forall n | n in d.quarantine && IsIntentName(n) ensures !v.Idle? && n == IntentName(v.plan) {
      IntentNamesAreNotIdentifiers(n);
      if !v.Idle? {
        JournalNamesAreDistinct(v.plan);
      }
    }
    if !v.Idle? {
      JournalNamesAreDistinct(v.plan);
    }
  }

  /** Quarantined runs come through a reconciliation unchanged. */
  lemma RunsUntouched(d: Disk, e: Disk, v: View)
    requires Shows(d, v) && Resumed(d, v, e, true)
    ensures NoRetentionRun(d) <==> forall n | n in e.quarantine :: !IsRetentionName(n)
  {
    if !v.Idle? {
      JournalNamesAreDistinct(v.plan);
      forall n | IsIdentifier(n) ensures n in d.quarantine <==> n in e.quarantine {
        assert n !in JournalNames(v.plan);
        assert n in d.quarantine - JournalNames(v.plan) <==> n in e.quarantine - JournalNames(v.plan);
      }
    }
  }

  /******* Moving and concluding *******/

  ghost predicate HasMoved(d: Disk, p: PlanId, moved: seq<BackupId>, v: View) {
    && v.Pending? && v.plan == p && Shows(d, v)
    && !HasDuplicateIds(moved) && SetOf(moved) == TrashEntries(d, p).Keys
  }

  /** The first `i` of the pending plan's backups are in the trash. */
  ghost predicate IsMoving(d: Disk, p: PlanId, ids: seq<BackupId>, i: nat, v: View) {
    i <= |ids| && v.Pending? && v.ids == ids && HasMoved(d, p, ids[..i], v) && HasTrash(d, p)
  }

  lemma MoveBackStep(d: Disk, e: Disk, p: PlanId, moved: seq<BackupId>, i: nat, v: View)
    requires i < |moved| && !HasDuplicateIds(moved) && HasMoved(d, p, moved[..i + 1], v)
    requires e == d || (moved[i] in TrashEntries(d, p) && e == MovedBack(d, p, moved[i]))
    ensures moved[i] in TrashEntries(d, p) && moved[i] !in d.backups && Shows(e, v)
    ensures e == MovedBack(d, p, moved[i]) ==> HasMoved(e, p, moved[..i], v)
  {
    LastOfPrefix(moved, i);
    MoveBackKeepsView(d, e, p, v.ids, moved[i], v);
    JournalNamesAreDistinct(p);
  }

  /** From `d`, whose trash was empty, exactly the backups `moved` were moved into it. */
  ghost predicate AllMoved(d: Disk, p: string, moved: seq<BackupId>, e: Disk) {
    && e == d.(quarantine := e.quarantine, backups := Without(d.backups, moved))
    && e.quarantine - {TrashName(p)} == d.quarantine - {TrashName(p)}
    && HasTrash(e, p) && TrashEntries(e, p).Keys == SetOf(moved) <= d.backups.Keys
    && forall id | id in SetOf(moved) :: TrashEntries(e, p)[id] == d.backups[id]
  }

  predicate CanMoveAll(d: Disk, ids: seq<BackupId>) {
    !HasDuplicateIds(ids) && forall id | id in ids :: id in d.backups && d.backups[id].Dir?
  }

  /** The trash of plan `p` is empty or holds the whole list. */
  predicate NotHalfMoved(d: Disk, p: string, ids: seq<BackupId>) {
    TrashEntries(d, p) == map[] || TrashEntries(d, p).Keys == SetOf(ids)
  }

  lemma OneMoreMoved(d: Disk, p: string, moved: seq<BackupId>, m: Disk, id: BackupId, e: Disk)
    requires AllMoved(d, p, moved, m) && id in m.backups && e == MovedOut(m, p, id)
    ensures AllMoved(d, p, moved + [id], e)
  {
    SetOfAppend(moved, id);
    TrashRewritten(m, p, TrashEntries(e, p));
    assert e.backups == Without(d.backups, moved + [id]);
  }

  lemma NotYetMoved(ids: seq<BackupId>, i: nat)
    requires i < |ids| && !HasDuplicateIds(ids)
    ensures ids[i] !in SetOf(ids[..i]) && !HasDuplicateIds(ids[..i + 1])
    ensures SetOf(ids[..i] + [ids[i]]) == SetOf(ids[..i]) + {ids[i]} && ids[..i] + [ids[i]] == ids[..i + 1]
  {
    LastOfPrefix(ids, i);
    assert ids[..i] + [ids[i]] == ids[..i + 1];
  }

  /** Writing the "approved" record is invisible. */
  lemma ApprovalKeepsView(d: Disk, e: Disk, p: PlanId, c: map<BackupId, Node>)
    requires e == d || exists doc :: e == PutAudit(d, ApprovedName(p), RegularFile(doc))
    ensures TouchesOnly(d, e, p)
    ensures Shows(d, Idle(c)) ==> Shows(e, Idle(c))
    ensures Shows(d, Idle(c)) && ApprovedName(p) !in d.audit ==> CompletedName(p) !in e.audit
  {
    forall q: PlanId ensures ApprovedName(p) != CompletedName(q) {
      assert |ApprovedName(p)| == 88 && |CompletedName(q)| == 89;
    }
  }

  /** Writing the "completed" record of a decided transaction is invisible. */
  lemma CompletionKeepsView(d: Disk, e: Disk, p: string, w: View)
    requires e == d || exists doc :: e == PutAudit(d, CompletedName(p), RegularFile(doc))
    ensures TouchesOnly(d, e, p)
    ensures w.Resolved? && w.plan == p && Shows(d, w) ==> Shows(e, w)
  {
    if IsHexDigest(p) {
      assert forall q: PlanId :: |ApprovedName(q)| == 88 && |CompletedName(q)| == 89;
      forall q: PlanId ensures q != p ==> CompletedName(p) != CompletedName(q) {
        if q != p {
          PlanNamesAreInjective(p, q);
        }
      }
    }
  }

  /** After the deletion, `moved` without its last element is what is still in the trash. */
  lemma LastOfPrefix(moved: seq<BackupId>, i: nat)
    requires i < |moved| && !HasDuplicateIds(moved)
    ensures SetOf(moved[..i]) == SetOf(moved[..i + 1]) - {moved[i]} && moved[i] in SetOf(moved[..i + 1])
  {
    assert moved[..i + 1][i] == moved[i];
    forall id | id in SetOf(moved[..i + 1]) - {moved[i]} ensures id in SetOf(moved[..i]) {
      var k :| 0 <= k < i + 1 && moved[..i + 1][k] == id;
      assert moved[..i][k] == id;
    }
    forall id | id in SetOf(moved[..i]) ensures id in SetOf(moved[..i + 1]) - {moved[i]} {
      var k :| 0 <= k < i && moved[..i][k] == id;
      assert moved[..i + 1][k] == id && moved[k] != moved[i];
    }
  }

  /** Working on the trash leaves intent and marker as they are. */
  lemma JournalFilesKept(d: Disk, e: Disk, p: PlanId)
    requires e.quarantine - {TrashName(p)} == d.quarantine - {TrashName(p)}
    ensures OnlyFileAt(d, MarkerName(p)) <==> OnlyFileAt(e, MarkerName(p))
    ensures OnlyFileAt(d, IntentName(p)) <==> OnlyFileAt(e, IntentName(p))
  {
    JournalNamesAreDistinct(p);
    forall n | n != TrashName(p)
      ensures n in d.quarantine <==> n in e.quarantine
      ensures n in d.quarantine ==> d.quarantine[n] == e.quarantine[n]
    {
      assert n in d.quarantine <==> n in d.quarantine - {TrashName(p)};
      assert n in e.quarantine <==> n in e.quarantine - {TrashName(p)};
    }
  }

  /** With all its backups in the trash, a plan that had no journal before can be concluded. */
  lemma ReadyToConclude(d: Disk, b: Disk, p: PlanId, ids: seq<BackupId>, e: Disk)
    requires JournalNames(p) !! d.quarantine.Keys && CanMoveAll(d, ids)
    requires b == SetTrash(PutJournal(d, IntentName(p), RegularFile(IntentDoc(1, p, d.repositoryId, ids))), p, map[])
    requires AllMoved(b, p, ids, e)
    ensures MarkerName(p) !in e.quarantine && OnlyFileAt(e, IntentName(p)) && e.audit == d.audit
    ensures TrashIsExpected(e, p, ids) && forall id | id in ids :: id !in e.backups
  {
    JournalNamesAreDistinct(p);
    JournalFilesKept(b, e, p);
    assert MarkerName(p) !in e.quarantine - {TrashName(p)};
    forall id | id in ids ensures id in SetOf(ids) {
      var i :| 0 <= i < |ids| && ids[i] == id;
    }
  }

  /** Of plan `p`, which ran from `d` to `e`, only the audit records are left. */
  ghost predicate LeavesOnlyRecords(d: Disk, p: string, e: Disk) {
    && TouchesOnly(d, e, p) && JournalNames(p) !! e.quarantine.Keys
    && CompletedName(p) in e.audit && e.audit[CompletedName(p)].RegularFile?
  }

  /** What a run of plan `p` that reports success has done, whatever else was going on. */
  ghost predicate RanToCompletion(d: Disk, p: string, ids: seq<BackupId>, e: Disk) {
    && LeavesOnlyRecords(d, p, e) && ApprovedName(p) !in d.audit
    && e.audit == Recorded(d, Recorded(d, d.audit, Approved, p, ids), Completed, p, ids)
    && SetOf(ids) <= d.backups.Keys && e.backups == Without(d.backups, ids)
  }

  /** There is no trace of plan `p`. */
  predicate Unstarted(d: Disk, p: string) {
    JournalNames(p) !! d.quarantine.Keys && ApprovedName(p) !in d.audit && CompletedName(p) !in d.audit
  }

  ghost predicate CanExecute(d: Disk, ids: seq<BackupId>, c: map<BackupId, Node>) {
    && Shows(d, Idle(c))
    && ids != [] && !HasDuplicateIds(ids)
    && forall id | id in ids :: id in c && c[id].Dir?
  }

  /** Where a run of plan `p` can leave the repository: the logical contents are `c` until the
      deletion is decided and `c` without `ids` from then on, never anything in between. */
  ghost predicate RunState(d: Disk, p: PlanId, ids: seq<BackupId>, c: map<BackupId, Node>) {
    || Shows(d, Idle(c)) || Shows(d, Torn(p, c)) || Shows(d, Pending(p, ids, c))
    || Shows(d, Resolved(p, ids, Without(c, ids))) || Shows(d, Idle(Without(c, ids)))
  }

  ghost predicate CanFinish(d: Disk, p: string, v: View) {
    && Shows(d, v) && (v.Pending? || v.Resolved?) && v.plan == p
    && TrashName(p) !in d.quarantine
    && (v.Resolved? ==> CompletedName(p) in d.audit)
  }

  /** What `ExecuteMoves` has established when it opens the journal of plan `p`. */
  ghost predicate CanBegin(d: Disk, p: PlanId, ids: seq<BackupId>, c: map<BackupId, Node>) {
    && Shows(d, Idle(c))
    && ApprovedName(p) in d.audit && CompletedName(p) !in d.audit
    && ids != [] && !HasDuplicateIds(ids)
    && forall id | id in ids :: id in c && c[id].Dir?
  }

  /******* The repository *******/

  /** No failed step goes unnoticed: what succeeds has succeeded in every step. */
  predicate Noticed(before: nat, after: nat, ok: bool) { before <= after && (ok ==> after == before) }

  class Repository {
    var disk: Disk
    /** False once the process has died: from then on no step has any effect. */
    var live: bool
    /** How many steps have failed so far, by an error or by a crash. */
    var faults: nat

    /** One atomic system call: it succeeds, fails without effect, or is the point of a crash
        (before or after its effect). */
    method Step(next: Disk) returns (ok: bool)
      modifies `disk, `live, `faults
      ensures ok ==> old(live) && live && disk == next && faults == old(faults)
      ensures !ok && old(live) ==> faults == old(faults) + 1 && (disk == old(disk) || (disk == next && !live))
      ensures !old(live) ==> !ok && !live && disk == old(disk) && faults == old(faults)
    {
      if !live {
        return false;
      }
      if * {
        faults := faults + 1;
        if * {
          live := false;
          if * {
            disk := next;
          }
        }
        return false;
      }
      disk := next;
      return true;
    }

    /** Syncs a directory, or any call that only reads. */
    method Sync() returns (r: Outcome)
      modifies `disk, `live, `faults
      ensures disk == old(disk) && (live ==> old(live)) && Noticed(old(faults), faults, r.Ok?)
      ensures r.Ok? ==> live
      ensures r.Err? ==> r.error == Io
      ensures old(live) && faults == old(faults) ==> r.Ok?
    {
      var ok := Step(disk);
      r := if ok then Ok else Err(Io);
    }

    /** Creates a file that must not exist, then writes it: a crash in between leaves it torn. */
    method WriteNewJournal(name: string, doc: Document) returns (r: Outcome)
      modifies `disk, `live, `faults
      ensures r.Ok? ==> live && name !in old(disk).quarantine && disk == PutJournal(old(disk), name, RegularFile(doc))
      ensures r.Err? ==>
        || disk == old(disk)
        || (name !in old(disk).quarantine &&
            (disk == PutJournal(old(disk), name, RegularFile(Partial)) ||
             disk == PutJournal(old(disk), name, RegularFile(doc))))
      ensures (live ==> old(live)) && Noticed(old(faults), faults, r.Ok?)
      ensures old(live) && faults == old(faults) ==> live && (r.Ok? <==> name !in old(disk).quarantine)
    {
      if name in disk.quarantine {
        return Err(Io);
      }
      var ok := Step(PutJournal(disk, name, RegularFile(Partial)));
      if !ok {
        return Err(Io);
      }
      ok := Step(PutJournal(disk, name, RegularFile(doc)));
      assert PutJournal(PutJournal(old(disk), name, RegularFile(Partial)), name, RegularFile(doc))
          == PutJournal(old(disk), name, RegularFile(doc));
      if !ok {
        return Err(Io);
      }
      r := Sync();
    }

    method WriteRetentionAudit(p: string, ids: seq<BackupId>, state: AuditState) returns (r: Outcome)
      modifies `disk, `live, `faults
      ensures var name := RecordName(state, p);
        && disk == old(disk).(audit := disk.audit)
        && IsRecording(old(disk), old(disk).audit, state, p, ids, disk.audit)
        && (r.Ok? ==> live && name !in old(disk).audit && disk.audit == Recorded(old(disk), old(disk).audit, state, p, ids))
        && (r == Err(AuditConflict) ==> name in old(disk).audit && disk == old(disk) && live && faults == old(faults))
        && (old(live) && faults == old(faults) && name !in old(disk).audit ==> r.Ok?)
        && (old(live) && faults == old(faults) && name in old(disk).audit ==> r == Err(AuditConflict))
        && (name in old(disk).audit ==> r.Err?)
      ensures (live ==> old(live)) && Noticed(old(faults), faults, r.Ok?)
    {
      var name := RecordName(state, p);
      r := Sync();
      if r.Err? {
        return;
      }
      if name in disk.audit {
        return Err(AuditConflict);
      }
      var ok := Step(PutAudit(disk, name, RegularFile(Partial)));
      if !ok {
        return Err(Io);
      }
      var doc := AuditDoc(state, p, disk.repositoryId, ids);
      ok := Step(PutAudit(disk, name, RegularFile(doc)));
      assert PutAudit(PutAudit(old(disk), name, RegularFile(Partial)), name, RegularFile(doc))
          == PutAudit(old(disk), name, RegularFile(doc));
      if !ok {
        return Err(Io);
      }
      r := Sync();
      if r.Err? {
        return;
      }
      r := Sync();
    }

    method RemoveIfExists(name: string) returns (r: Outcome)
      modifies `disk, `live, `faults
      ensures !old(live) ==> disk == old(disk)
      ensures disk == old(disk) || disk == DropJournal(old(disk), name)
      ensures r.Ok? ==> live && disk == DropJournal(old(disk), name)
      ensures (live ==> old(live)) && Noticed(old(faults), faults, r.Ok?)
      ensures name in old(disk).quarantine && old(disk).quarantine[name].Dir? ==> r == Err(Io) && disk == old(disk)
      ensures old(live) && faults == old(faults) ==>
        (r.Ok? <==> name !in old(disk).quarantine || !old(disk).quarantine[name].Dir?)
    {
      if name !in disk.quarantine {
        assert disk == DropJournal(disk, name);
        r := Sync();
        return;
      }
      if disk.quarantine[name].Dir? {
        return Err(Io);
      }
      var ok := Step(DropJournal(disk, name));
      if !ok {
        return Err(Io);
      }
      r := Sync();
    }

    method RemoveEmptyTrash(p: string) returns (r: Outcome)
      modifies `disk, `live, `faults
      ensures !old(live) ==> disk == old(disk)
      ensures disk == old(disk) ||
        (disk == DropJournal(old(disk), TrashName(p)) && TrashName(p) in old(disk).quarantine
         && old(disk).quarantine[TrashName(p)] == Dir(map[]))
      ensures r.Ok? ==> live && disk == DropJournal(old(disk), TrashName(p))
      ensures (live ==> old(live)) && Noticed(old(faults), faults, r.Ok?)
      ensures old(live) && faults == old(faults) && HasEmptyOrNoTrash(old(disk), p) ==> r.Ok?
    {
      if TrashName(p) !in disk.quarantine {
        assert disk == DropJournal(disk, TrashName(p));
        r := Sync();
        return;
      }
      if disk.quarantine[TrashName(p)] != Dir(map[]) {
        return Err(Io);
      }
      var ok := Step(DropJournal(disk, TrashName(p)));
      if !ok {
        return Err(Io);
      }
      r := Sync();
    }

    /******* Moving backups *******/

    method MoveToTrash(p: string, id: BackupId) returns (ok: bool)
      modifies `disk, `live, `faults
      ensures !ok && disk != old(disk) ==> !live
      ensures ok ==> live
      ensures disk == old(disk) || (id in old(disk).backups && HasTrash(old(disk), p) && disk == MovedOut(old(disk), p, id))
      ensures ok ==> id in old(disk).backups && disk == MovedOut(old(disk), p, id)
      ensures (live ==> old(live)) && Noticed(old(faults), faults, ok)
      ensures old(live) && faults == old(faults) && HasTrash(old(disk), p) && id in old(disk).backups - TrashEntries(old(disk), p).Keys ==>
        ok
      ensures old(live) && faults == old(faults) ==> live
    {
      if id !in disk.backups || !HasTrash(disk, p) || !CanReplace(TrashEntries(disk, p), id) {
        return false;
      }
      ok := Step(MovedOut(disk, p, id));
    }

    method MoveBack(p: string, id: BackupId) returns (ok: bool)
      modifies `disk, `live, `faults
      ensures TouchesOnly(old(disk), disk, p)
      ensures !old(live) ==> disk == old(disk)
      ensures ok ==> live
      ensures disk == old(disk) || (id in TrashEntries(old(disk), p) && disk == MovedBack(old(disk), p, id) && CanReplace(old(disk).backups, id))
      ensures ok ==> id in TrashEntries(old(disk), p) && disk == MovedBack(old(disk), p, id)
      ensures (live ==> old(live)) && Noticed(old(faults), faults, ok)
      ensures old(live) && faults == old(faults) && id in TrashEntries(old(disk), p) && id !in old(disk).backups ==> ok
      ensures old(live) && faults == old(faults) ==> live
    {
      if id !in TrashEntries(disk, p) || !CanReplace(disk.backups, id) {
        return false;
      }
      ok := Step(MovedBack(disk, p, id));
    }

    /** Removes a trashed backup with everything in it; not atomic, so an interrupted removal
        leaves a directory with some part of its entries. */
    method RemoveTrashed(p: string, id: BackupId) returns (r: Outcome)
      modifies `disk, `live, `faults
      ensures disk == old(disk) ||
        (id in TrashEntries(old(disk), p) &&
         (disk == SetTrash(old(disk), p, TrashEntries(old(disk), p) - {id}) ||
          exists rest :: disk == SetTrash(old(disk), p, TrashEntries(old(disk), p)[id := Dir(rest)])))
      ensures r.Ok? ==> live && disk == SetTrash(old(disk), p, TrashEntries(old(disk), p) - {id})
      ensures (live ==> old(live)) && Noticed(old(faults), faults, r.Ok?)
      ensures old(live) && faults == old(faults) && id in TrashEntries(old(disk), p) && TrashEntries(old(disk), p)[id].Dir? ==>
        r.Ok?
    {
      if id !in TrashEntries(disk, p) || !TrashEntries(disk, p)[id].Dir? {
        return Err(CleanupPending);
      }
      if * {
        if live {
          faults := faults + 1;
          var rest: set<string> := *;
          var kept := TrashEntries(disk, p)[id].entries - rest;
          var _ := Step(SetTrash(disk, p, TrashEntries(disk, p)[id := Dir(kept)]));
          return Err(CleanupPending);
        }
      }
      var ok := Step(SetTrash(disk, p, TrashEntries(disk, p) - {id}));
      if !ok {
        return Err(CleanupPending);
      }
      r := Sync();
    }

    /******* The transaction *******/

    method Begin(p: PlanId, ids: seq<BackupId>, ghost c: map<BackupId, Node>) returns (r: Outcome)
      modifies `disk, `live, `faults
      ensures TouchesOnly(old(disk), disk, p) && disk.audit == old(disk).audit && (live ==> old(live))
      ensures Noticed(old(faults), faults, r.Ok?)
      ensures CanBegin(old(disk), p, ids, c) ==>
        && (Shows(disk, Idle(c)) || Shows(disk, Torn(p, c)) || Shows(disk, Pending(p, ids, c)))
        && (r.Ok? ==> live && Shows(disk, Pending(p, ids, c)) && HasTrash(disk, p) && TrashEntries(disk, p) == map[])
        && (old(live) && faults == old(faults) ==> r.Ok?)
      ensures CanBegin(old(disk), p, ids, c) ==> TrashEntries(disk, p) == map[]
      ensures TrashName(p) in old(disk).quarantine ==>
        r.Err? && TrashName(p) in disk.quarantine && disk.quarantine[TrashName(p)] == old(disk).quarantine[TrashName(p)]
      ensures r.Ok? ==> live && disk == SetTrash(PutJournal(old(disk), IntentName(p),
        RegularFile(IntentDoc(1, p, old(disk).repositoryId, ids))), p, map[])
      ensures old(live) && faults == old(faults) && JournalNames(p) !! old(disk).quarantine.Keys ==> r.Ok?
    {
      JournalNamesDiffer(p);
      r := WriteNewJournal(IntentName(p), IntentDoc(1, p, disk.repositoryId, ids));
      if CanBegin(old(disk), p, ids, c) {
        IntentOpens(old(disk), disk, p, ids, c);
      }
      if r.Err? {
        return;
      }
      if TrashName(p) in disk.quarantine {
        return Err(AuditConflict);
      }
      TrashRewritten(disk, p, map[]);
      var ok := Step(SetTrash(disk, p, map[]));
      if !ok {
        return Err(Io);
      }
      r := Sync();
    }

    method RemoveIntent(p: string, ghost v: View) returns (r: Outcome)
      modifies `disk, `live, `faults
      ensures disk.audit == old(disk).audit
      ensures !old(live) ==> disk == old(disk)
      ensures TouchesOnly(old(disk), disk, p) && (live ==> old(live)) && Noticed(old(faults), faults, r.Ok?)
      ensures CanFinish(old(disk), p, v) && MarkerName(p) !in old(disk).quarantine ==>
        && (Shows(disk, v) || Shows(disk, Idle(v.contents)))
        && (r.Ok? ==> live && Shows(disk, Idle(v.contents)))
        && (old(live) && faults == old(faults) ==> r.Ok?)
      ensures r.Ok? ==> live && disk == DropJournal(old(disk), IntentName(p))
      ensures old(live) && faults == old(faults) && OnlyFileAt(old(disk), IntentName(p)) ==> r.Ok?
    {
      r := RemoveIfExists(IntentName(p));
    }

    /** Removes the journal files of a transaction that has nothing left in the trash. */
    method Finish(p: string, ghost v: View) returns (r: Outcome)
      modifies `disk, `live, `faults
      ensures disk.audit == old(disk).audit
      ensures !old(live) ==> disk == old(disk)
      ensures TouchesOnly(old(disk), disk, p) && (live ==> old(live)) && Noticed(old(faults), faults, r.Ok?)
      ensures CanFinish(old(disk), p, v) ==>
        && (Shows(disk, v) || Shows(disk, Idle(v.contents)))
        && (r.Ok? ==> live && Shows(disk, Idle(v.contents)))
        && (old(live) && faults == old(faults) ==> r.Ok?)
      ensures r.Ok? ==> live && disk == DropJournal(DropJournal(old(disk), MarkerName(p)), IntentName(p))
      ensures old(live) && faults == old(faults) && OnlyFileAt(old(disk), MarkerName(p)) && OnlyFileAt(old(disk), IntentName(p)) ==>
        r.Ok?
    {
      JournalNamesDiffer(p);
      r := RemoveIfExists(MarkerName(p));
      if r.Err? {
        return;
      }
      r := RemoveIntent(p, v);
    }

    method Abort(p: string, ghost v: View) returns (r: Outcome)
      modifies `disk, `live, `faults
      ensures disk.audit == old(disk).audit
      ensures !old(live) ==> disk == old(disk)
      ensures TouchesOnly(old(disk), disk, p) && (live ==> old(live)) && Noticed(old(faults), faults, r.Ok?)
      ensures v.Pending? && v.plan == p && Shows(old(disk), v) ==>
        && (Shows(disk, v) || Shows(disk, Idle(v.contents)))
        && (r.Ok? ==> live && Shows(disk, Idle(v.contents)))
        && (old(live) && faults == old(faults) && TrashEntries(old(disk), p) == map[] ==> r.Ok?)
    {
      JournalNamesDiffer(p);
      r := RemoveEmptyTrash(p);
      if r.Err? {
        return;
      }
      r := Finish(p, v);
    }

    /** Looks at every entry of the trash.  Success means that working through `ids` will reach
        all of it; when no step fails only a stray entry or a trash that is no directory fails. */
    method ValidateTrashEntries(p: string, ids: seq<BackupId>) returns (r: Outcome)
      modifies `disk, `live, `faults
      ensures disk == old(disk) && (live ==> old(live)) && Noticed(old(faults), faults, r.Ok?)
      ensures r.Ok? ==> live && TrashIsExpected(disk, p, ids) && TrashEntries(disk, p).Keys <= SetOf(ids)
      ensures r == Err(RecoveryRequired) ==> exists name :: name in TrashEntries(disk, p) && name !in ids
      ensures r == Err(UnsafeFilesystemEntry) ==>
        TrashName(p) in disk.quarantine && (!disk.quarantine[TrashName(p)].Dir? || exists name :: name in TrashEntries(disk, p) && !TrashEntries(disk, p)[name].Dir?)
      ensures r.Err? ==> r.error in {Io, RecoveryRequired, UnsafeFilesystemEntry}
      ensures r.Err? && r.error != Io ==> !TrashIsExpected(disk, p, ids)
      ensures old(live) && faults == old(faults) ==> (r.Ok? <==> TrashIsExpected(disk, p, ids))
    {
      r := Sync();
      if r.Err? || TrashName(p) !in disk.quarantine {
        return;
      }
      if !disk.quarantine[TrashName(p)].Dir? {
        return Err(UnsafeFilesystemEntry);
      }
      var entries := disk.quarantine[TrashName(p)].entries;
      var todo := entries.Keys;
      while todo != {}
        decreases todo
        invariant disk == old(disk) && live && old(live) && r.Ok? && faults == old(faults)
        invariant todo <= entries.Keys
        invariant forall name | name in entries.Keys - todo :: name in ids && entries[name].Dir?
      {
        var name :| name in todo;
        r := Sync();
        if r.Err? {
          return;
        }
        if name !in ids {
          return Err(RecoveryRequired);
        }
        if !entries[name].Dir? {
          assert name in TrashEntries(disk, p);
          return Err(UnsafeFilesystemEntry);
        }
        todo := todo - {name};
      }
    }

    /** Deletes what is left in the trash of a decided transaction. */
    method CleanupTransaction(p: string, ids: seq<BackupId>, ghost v: View) returns (r: Outcome)
      modifies `disk, `live, `faults
      ensures disk.quarantine - {TrashName(p)} == old(disk).quarantine - {TrashName(p)}
      ensures TouchesOnly(old(disk), disk, p) && disk.audit == old(disk).audit && (live ==> old(live))
      ensures Noticed(old(faults), faults, r.Ok?)
      ensures disk.backups == old(disk).backups
      ensures v.Resolved? && v.plan == p && v.ids == ids && Shows(old(disk), v) ==>
        && Shows(disk, v)
        && (old(live) && faults == old(faults) ==> r.Ok?)
      ensures r.Ok? ==> live && TrashName(p) !in disk.quarantine
      ensures r.Err? && TrashName(p) in old(disk).quarantine && TrashName(p) !in disk.quarantine ==>
        r.error == CleanupPending
      ensures r.Ok? ==> forall id | id in ids :: id !in disk.backups
      ensures (exists id :: id in ids && id in old(disk).backups) ==> r.Err? && disk == old(disk)
      ensures old(live) && faults == old(faults) && TrashIsExpected(old(disk), p, ids) && (forall id | id in ids :: id !in old(disk).backups) ==>
        r.Ok?
    {
      r := ValidateTrashEntries(p, ids);
      if r.Err? {
        return;
      }
      if exists id :: id in ids && id in disk.backups {
        return Err(RecoveryRequired);
      }
      for i := 0 to |ids|
        invariant live && old(live) && faults == old(faults) && IsEmptying(old(disk), p, ids, disk)
        invariant forall j | 0 <= j < i :: ids[j] !in TrashEntries(disk, p)
      {
        if ids[i] in TrashEntries(disk, p) {
          ghost var before := disk;
          r := RemoveTrashed(p, ids[i]);
          OneRemoved(old(disk), p, ids, before, ids[i], disk);
          if r.Err? {
            EmptyingKeepsView(old(disk), p, ids, disk, v);
            return;
          }
        }
      }
      assert TrashEntries(disk, p) == map[];
      r := RemoveEmptyTrash(p);
      EmptyingKeepsView(old(disk), p, ids, disk, v);
      if r.Err? {
        r := Err(CleanupPending);
      }
    }

    /** Moves every trashed backup of an undecided transaction back to `backups/`. */
    method RollbackTransaction(p: string, ids: seq<BackupId>, ghost v: View) returns (r: Outcome)
      modifies `disk, `live, `faults
      ensures disk.audit == old(disk).audit
      ensures TouchesOnly(old(disk), disk, p) && (live ==> old(live)) && Noticed(old(faults), faults, r.Ok?)
      ensures v.Pending? && v.plan == p && v.ids == ids && Shows(old(disk), v) ==>
        && Shows(disk, v)
        && (old(live) && faults == old(faults) ==> r.Ok?)
      ensures !EachInOnePlace(old(disk), p, ids) ==> r.Err? && disk == old(disk)
      ensures r.Ok? ==> live && TrashName(p) !in disk.quarantine
      ensures r.Ok? ==> forall id | id in ids :: id in disk.backups
      ensures r.Ok? ==> disk == old(disk).(backups := old(disk).backups + TrashEntries(old(disk), p),
        quarantine := old(disk).quarantine - {TrashName(p)})
      ensures old(live) && faults == old(faults) && TrashIsExpected(old(disk), p, ids) && EachInOnePlace(old(disk), p, ids) ==>
        r.Ok?
    {
      r := ValidateTrashEntries(p, ids);
      if r.Err? {
        return;
      }
      if !EachInOnePlace(disk, p, ids) {
        return Err(RecoveryRequired);
      }
      for i := |ids| downto 0
        invariant live && old(live) && faults == old(faults) && IsRestoring(old(disk), p, ids, disk)
        invariant forall j | i <= j < |ids| :: ids[j] !in TrashEntries(disk, p)
      {
        if ids[i] in TrashEntries(disk, p) {
          ghost var before := disk;
          var ok := MoveBack(p, ids[i]);
          OneRestored(old(disk), p, ids, before, ids[i], disk);
          if ok {
            r := Sync();
          } else {
            r := Err(RecoveryRequired);
          }
          if r.Err? {
            RestoringKeepsView(old(disk), p, ids, disk, v);
            return;
          }
        }
      }
      assert TrashEntries(disk, p) == map[];
      r := RemoveEmptyTrash(p);
      RestoringKeepsView(old(disk), p, ids, disk, v);
      if r.Ok? {
        AllRestored(old(disk), p, ids, disk);
      }
    }

    /** Walks the moves of a failed run back, newest first. */
    method RollbackMoves(p: PlanId, moved: seq<BackupId>, ghost v: View) returns (r: Outcome)
      modifies `disk, `live, `faults
      ensures disk.audit == old(disk).audit
      ensures !old(live) ==> disk == old(disk)
      ensures TouchesOnly(old(disk), disk, p) && (live ==> old(live)) && Noticed(old(faults), faults, r.Ok?)
      ensures HasMoved(old(disk), p, moved, v) ==>
        && Shows(disk, v)
        && (r.Ok? ==> TrashEntries(disk, p) == map[])
        && (old(live) && faults == old(faults) ==> r.Ok? && live)
    {
      ghost var claimed := HasMoved(disk, p, moved, v);
      assert moved[..|moved|] == moved;
      for i := |moved| downto 0
        invariant TouchesOnly(old(disk), disk, p) && disk.audit == old(disk).audit && (live ==> old(live)) && faults == old(faults)
        invariant !old(live) ==> disk == old(disk)
        invariant claimed ==> HasMoved(disk, p, moved[..i], v) && !HasDuplicateIds(moved)
        invariant claimed && old(live) && faults == old(faults) ==> live
      {
        r := UndoMove(p, moved, i, v);
        if r.Err? {
          return;
        }
      }
      assert claimed ==> TrashEntries(disk, p).Keys == {};
      r := Ok;
    }

    method UndoMove(p: PlanId, moved: seq<BackupId>, i: nat, ghost v: View) returns (r: Outcome)
      requires i < |moved|
      modifies `disk, `live, `faults
      ensures disk.audit == old(disk).audit
      ensures !old(live) ==> disk == old(disk)
      ensures TouchesOnly(old(disk), disk, p) && (live ==> old(live)) && Noticed(old(faults), faults, r.Ok?)
      ensures HasMoved(old(disk), p, moved[..i + 1], v) && !HasDuplicateIds(moved) ==>
        && Shows(disk, v)
        && (r.Ok? ==> HasMoved(disk, p, moved[..i], v))
        && (old(live) && faults == old(faults) ==> r.Ok? && live)
    {
      var ok := MoveBack(p, moved[i]);
      if HasMoved(old(disk), p, moved[..i + 1], v) && !HasDuplicateIds(moved) {
        MoveBackStep(old(disk), disk, p, moved, i, v);
      }
      if !ok {
        return Err(RecoveryRequired);
      }
      r := Sync();
    }

    method ExecuteMoves(p: PlanId, ids: seq<BackupId>, ghost c: map<BackupId, Node>) returns (r: Outcome)
      modifies `disk, `live, `faults
      ensures RunRecorded(old(disk), p, ids, disk)
      ensures TouchesOnly(old(disk), disk, p) && (live ==> old(live)) && Noticed(old(faults), faults, r.Ok?)
      ensures ApprovedName(p) in old(disk).audit ==> r.Err? && disk == old(disk)
      ensures CanExecute(old(disk), ids, c) ==>
        && RunState(disk, p, ids, c)
        && (r.Ok? ==> Shows(disk, Idle(Without(c, ids))))
        && (disk != old(disk) ==> ApprovedName(p) in disk.audit)
        && (old(live) && faults == old(faults) && ApprovedName(p) !in old(disk).audit ==> r.Ok?)
      ensures (&& CanExecute(old(disk), ids, c) && old(live) && live && r.Err? && faults == old(faults) + 1
               && Shows(disk, Pending(p, ids, c))) ==> NotHalfMoved(disk, p, ids)
      ensures r.Ok? ==> live && RanToCompletion(old(disk), p, ids, disk)
      ensures old(live) && faults == old(faults) && Unstarted(old(disk), p) && CanMoveAll(old(disk), ids) ==> r.Ok?
    {
      ghost var claimed := CanExecute(disk, ids, c);
      JournalNamesDiffer(p);
      ghost var v := Pending(p, ids, c);
      r := WriteRetentionAudit(p, ids, Approved);
      ApprovalKeepsView(old(disk), disk, p, c);
      if r.Err? {
        return;
      }
      ghost var approved := disk;
      assert |ApprovedName(p)| != |CompletedName(p)|;
      r := Begin(p, ids, c);
      if r.Err? {
        return;
      }
      ghost var begun := disk;
      r := MoveAll(p, ids, v);
      if Shows(disk, v) && Shows(disk, Idle(c)) {
        ViewIsUnique(disk, v, Idle(c));
      }
      if r.Err? {
        return;
      }
      if Unstarted(old(disk), p) && CanMoveAll(old(disk), ids) {
        ReadyToConclude(approved, begun, p, ids, disk);
      }
      r := Conclude(p, ids, v);
    }

    /** Moves every selected backup into the trash, or undoes the moves already made. */
    method MoveAll(p: PlanId, ids: seq<BackupId>, ghost v: View) returns (r: Outcome)
      modifies `disk, `live, `faults
      ensures disk.audit == old(disk).audit
      ensures TouchesOnly(old(disk), disk, p) && (live ==> old(live)) && Noticed(old(faults), faults, r.Ok?)
      ensures IsMoving(old(disk), p, ids, 0, v) && old(live) ==>
        && (Shows(disk, v) || Shows(disk, Idle(v.contents)))
        && (r.Ok? ==> live && HasMoved(disk, p, ids, v))
        && (faults == old(faults) ==> r.Ok?)
      ensures IsMoving(old(disk), p, ids, 0, v) && old(live) && live && r.Err? && faults == old(faults) + 1 ==>
        Shows(disk, Idle(v.contents))
      ensures HasTrash(old(disk), p) && TrashEntries(old(disk), p) == map[] ==>
        && (r.Ok? ==> AllMoved(old(disk), p, ids, disk))
        && (old(live) && faults == old(faults) && CanMoveAll(old(disk), ids) ==> r.Ok? && live)
    {
      ghost var emptied := HasTrash(disk, p) && TrashEntries(disk, p) == map[];
      ghost var claimed := IsMoving(disk, p, ids, 0, v) && live;
      for i := 0 to |ids|
        invariant TouchesOnly(old(disk), disk, p) && disk.audit == old(disk).audit && (live ==> old(live)) && faults == old(faults)
        invariant claimed ==> live && IsMoving(disk, p, ids, i, v)
        invariant emptied ==> AllMoved(old(disk), p, ids[..i], disk)
        invariant emptied && old(live) && faults == old(faults) && CanMoveAll(old(disk), ids) ==> live
      {
        r := MoveNext(p, ids, i, old(disk), v);
        if r.Err? {
          return;
        }
      }
      assert ids[..|ids|] == ids;
      r := Ok;
    }

    /** One round of the loop: `ids[i]` is moved and synced, or everything moved so far is undone. */
    method MoveNext(p: PlanId, ids: seq<BackupId>, i: nat, ghost start: Disk, ghost v: View) returns (r: Outcome)
      requires i < |ids|
      modifies `disk, `live, `faults
      ensures disk.audit == old(disk).audit
      ensures TouchesOnly(old(disk), disk, p) && (live ==> old(live)) && Noticed(old(faults), faults, r.Ok?)
      ensures IsMoving(old(disk), p, ids, i, v) && old(live) ==>
        && (Shows(disk, v) || Shows(disk, Idle(v.contents)))
        && (r.Ok? ==> live && IsMoving(disk, p, ids, i + 1, v))
        && (faults == old(faults) ==> r.Ok?)
      ensures IsMoving(old(disk), p, ids, i, v) && old(live) && live && r.Err? && faults == old(faults) + 1 ==>
        Shows(disk, Idle(v.contents))
      ensures AllMoved(start, p, ids[..i], old(disk)) ==>
        && (r.Ok? ==> AllMoved(start, p, ids[..i + 1], disk))
        && (old(live) && faults == old(faults) && CanMoveAll(start, ids) ==> r.Ok? && live)
    {
      ghost var claimed := IsMoving(disk, p, ids, i, v) && live;
      if claimed || CanMoveAll(start, ids) {
        NotYetMoved(ids, i);
      }
      assert ids[..i] + [ids[i]] == ids[..i + 1];
      var ok := MoveToTrash(p, ids[i]);
      if claimed {
        MoveOutKeepsView(old(disk), disk, p, ids[i], v);
      }
      if ok && AllMoved(start, p, ids[..i], old(disk)) {
        OneMoreMoved(start, p, ids[..i], old(disk), ids[i], disk);
      }
      if ok {
        r := Sync();
        if r.Ok? {
          return;
        }
      }
      r := Undo(p, if ok then ids[..i + 1] else ids[..i], v);
      if r.Ok? {
        r := Err(Io);
      }
    }

    /** Decides the deletion, empties the trash, records completion and drops the journal. */
    method Conclude(p: PlanId, ids: seq<BackupId>, ghost v: View) returns (r: Outcome)
      modifies `disk, `live, `faults
      ensures IsRecording(old(disk), old(disk).audit, Completed, p, ids, disk.audit)
      ensures r.Ok? ==> disk.audit == Recorded(old(disk), old(disk).audit, Completed, p, ids)
      ensures TouchesOnly(old(disk), disk, p) && (live ==> old(live)) && Noticed(old(faults), faults, r.Ok?)
      ensures v.Pending? && v.ids == ids && HasMoved(old(disk), p, ids, v) ==>
        && (Shows(disk, v) || Shows(disk, Resolved(p, ids, Without(v.contents, ids))) ||
            Shows(disk, Idle(Without(v.contents, ids))))
        && (r.Ok? ==> Shows(disk, Idle(Without(v.contents, ids))))
        && (old(live) && faults == old(faults) ==> r.Ok?)
      ensures v.Pending? && v.ids == ids && HasMoved(old(disk), p, ids, v) && Shows(disk, v) ==>
        NotHalfMoved(disk, p, ids)
      ensures r.Ok? ==> live && disk.backups == old(disk).backups && LeavesOnlyRecords(old(disk), p, disk)
      ensures (&& old(live) && faults == old(faults) && MarkerName(p) !in old(disk).quarantine && OnlyFileAt(old(disk), IntentName(p))
               && CompletedName(p) !in old(disk).audit && TrashIsExpected(old(disk), p, ids)
               && (forall id | id in ids :: id !in old(disk).backups)) ==> r.Ok?
    {
      ghost var claimed := v.Pending? && v.ids == ids && HasMoved(disk, p, ids, v);
      JournalNamesDiffer(p);
      r := WriteNewJournal(MarkerName(p), Blank);
      if claimed && disk != old(disk) {
        MarkerDecides(old(disk), disk, disk.quarantine[MarkerName(p)].doc, v);
      }
      if r.Err? {
        return;
      }
      ghost var w := Resolved(p, ids, if v.Pending? then Without(v.contents, ids) else map[]);
      ghost var marked := disk;
      assert TrashEntries(marked, p) == TrashEntries(old(disk), p);
      r := CleanupTransaction(p, ids, w);
      if r.Err? {
        return;
      }
      JournalFilesKept(marked, disk, p);
      r := RecordAndFinish(p, ids, w);
    }

    /** Records the completion of an emptied transaction and drops its journal. */
    method RecordAndFinish(p: PlanId, ids: seq<BackupId>, ghost w: View) returns (r: Outcome)
      modifies `disk, `live, `faults
      ensures TouchesOnly(old(disk), disk, p) && (live ==> old(live)) && Noticed(old(faults), faults, r.Ok?)
      ensures IsRecording(old(disk), old(disk).audit, Completed, p, ids, disk.audit)
      ensures r.Ok? ==>
        && live && disk.audit == Recorded(old(disk), old(disk).audit, Completed, p, ids) && disk.backups == old(disk).backups
        && disk.quarantine == old(disk).quarantine - {MarkerName(p)} - {IntentName(p)}
      ensures w.Resolved? && w.plan == p && Shows(old(disk), w) && TrashName(p) !in old(disk).quarantine ==>
        && (Shows(disk, w) || Shows(disk, Idle(w.contents)))
        && (r.Ok? ==> Shows(disk, Idle(w.contents)))
      ensures (&& old(live) && faults == old(faults) && CompletedName(p) !in old(disk).audit
               && OnlyFileAt(old(disk), MarkerName(p)) && OnlyFileAt(old(disk), IntentName(p))) ==> r.Ok?
    {
      r := WriteRetentionAudit(p, ids, Completed);
      CompletionKeepsView(old(disk), disk, p, w);
      if r.Err? {
        return;
      }
      r := Finish(p, w);
    }

    /** The two calls a failed move makes: walk the moves back, then drop the journal. */
    method Undo(p: PlanId, moved: seq<BackupId>, ghost v: View) returns (r: Outcome)
      modifies `disk, `live, `faults
      ensures disk.audit == old(disk).audit
      ensures !old(live) ==> disk == old(disk)
      ensures TouchesOnly(old(disk), disk, p) && (live ==> old(live)) && Noticed(old(faults), faults, r.Ok?)
      ensures HasMoved(old(disk), p, moved, v) ==>
        && (Shows(disk, v) || Shows(disk, Idle(v.contents)))
        && (old(live) && faults == old(faults) ==> live && Shows(disk, Idle(v.contents)))
    {
      r := RollbackMoves(p, moved, v);
      if r.Err? {
        return;
      }
      r := Abort(p, v);
    }

    /******* Recovery *******/

    /** Finishes or undoes the transaction behind one intent file. */
    method ReconcileTransaction(name: string, ghost v: View) returns (r: Outcome)
      requires IsIntentName(name)
      modifies `disk, `live, `faults
      ensures var p := PlanOfIntentName(name);
        RecoveryRecorded(old(disk), p, ListedBy(old(disk), p), disk, r.Ok?) || name != IntentName(p)
      ensures !IsWholeIntent(old(disk), name) ==>
        && r.Err? && disk == old(disk)
        && (old(live) && faults == old(faults) && name in old(disk).quarantine ==>
              r.error == if IsIdentifier(PlanOfIntentName(name)) && !old(disk).quarantine[name].RegularFile?
                         then UnsafeFilesystemEntry else RecoveryRequired)
      ensures (live ==> old(live)) && Noticed(old(faults), faults, r.Ok?) && (r.Ok? ==> live)
      ensures Oddity(old(disk), PlanOfIntentName(name)).Some? ==> r.Err? && disk == old(disk)
      ensures Stranded(old(disk), name) ==> r.Err? && disk == old(disk)
      ensures !v.Idle? && name == IntentName(v.plan) && Shows(old(disk), v) ==>
        && TouchesOnly(old(disk), disk, v.plan)
        && (Shows(disk, v) || (!v.Torn? && Shows(disk, Idle(v.contents))))
        && (r.Ok? ==> live && !v.Torn? && Shows(disk, Idle(v.contents)))
        && (old(live) && faults == old(faults) ==> (r.Ok? <==> !v.Torn?))
      ensures old(live) && faults == old(faults) ==> IsRound(old(disk), name, disk, r.Ok?)
    {
      var p := PlanOfIntentName(name);
      if !IsIdentifier(p) {
        return Err(RecoveryRequired);
      }
      r := Sync();
      if r.Err? {
        return;
      }
      if name !in disk.quarantine {
        return Err(Io);
      }
      if !disk.quarantine[name].RegularFile? {
        return Err(UnsafeFilesystemEntry);
      }
      var doc := disk.quarantine[name].doc;
      if !doc.IntentDoc? || doc.formatVersion != 1 || doc.planId != p || doc.repositoryId != disk.repositoryId
         || doc.deleteIds == [] || HasDuplicateIds(doc.deleteIds) {
        return Err(RecoveryRequired);
      }
      r := ResolveTransaction(p, doc.deleteIds, v);
    }

    /** Finishes a decided transaction, undoes an undecided one. */
    method ResolveTransaction(p: string, ids: seq<BackupId>, ghost v: View) returns (r: Outcome)
      modifies `disk, `live, `faults
      ensures RecoveryRecorded(old(disk), p, ids, disk, r.Ok?)
      ensures (live ==> old(live)) && Noticed(old(faults), faults, r.Ok?) && (r.Ok? ==> live)
      ensures Oddity(old(disk), p).Some? ==> r == Err(Oddity(old(disk), p).value) && disk == old(disk)
      ensures (if IsDecided(old(disk), p) then exists id :: id in ids && id in old(disk).backups
               else !EachInOnePlace(old(disk), p, ids)) ==> r.Err? && disk == old(disk)
      ensures (v.Pending? || v.Resolved?) && v.plan == p && v.ids == ids && Shows(old(disk), v) ==>
        && TouchesOnly(old(disk), disk, p)
        && (Shows(disk, v) || Shows(disk, Idle(v.contents)))
        && (r.Ok? ==> live && Shows(disk, Idle(v.contents)))
        && (old(live) && faults == old(faults) ==> r.Ok?)
      ensures OpenAt(old(disk), p) && ids == ListedBy(old(disk), p) ==>
        && (r.Ok? ==> live && Settled(old(disk), p, disk))
        && (old(live) && faults == old(faults) ==> r.Ok?)
    {
      if IsDecided(disk, p) {
        r := FinishDecided(p, ids, v);
      } else {
        r := UndoUndecided(p, ids, v);
      }
    }

    method FinishDecided(p: string, ids: seq<BackupId>, ghost v: View) returns (r: Outcome)
      requires IsDecided(disk, p)
      modifies `disk, `live, `faults
      ensures RecoveryRecorded(old(disk), p, ids, disk, r.Ok?)
      ensures (live ==> old(live)) && Noticed(old(faults), faults, r.Ok?) && (r.Ok? ==> live)
      ensures Oddity(old(disk), p).Some? ==> r == Err(Oddity(old(disk), p).value) && disk == old(disk)
      ensures (exists id :: id in ids && id in old(disk).backups) ==> r.Err? && disk == old(disk)
      ensures v.Resolved? && v.plan == p && v.ids == ids && Shows(old(disk), v) ==>
        && TouchesOnly(old(disk), disk, p)
        && (Shows(disk, v) || Shows(disk, Idle(v.contents)))
        && (r.Ok? ==> Shows(disk, Idle(v.contents)))
        && (old(live) && faults == old(faults) ==> r.Ok?)
      ensures OpenAt(old(disk), p) && ids == ListedBy(old(disk), p) ==>
        && (r.Ok? ==> Settled(old(disk), p, disk))
        && (old(live) && faults == old(faults) ==> r.Ok?)
    {
      if MarkerName(p) in disk.quarantine {
        r := FinishMarked(p, ids, v);
      } else {
        r := FinishRecorded(p, ids, v);
      }
    }

    method FinishMarked(p: string, ids: seq<BackupId>, ghost v: View) returns (r: Outcome)
      requires MarkerName(p) in disk.quarantine
      modifies `disk, `live, `faults
      ensures CompletionRecorded(old(disk), p, ids, disk, r.Ok?)
      ensures (live ==> old(live)) && Noticed(old(faults), faults, r.Ok?) && (r.Ok? ==> live)
      ensures Oddity(old(disk), p).Some? ==> r == Err(Oddity(old(disk), p).value) && disk == old(disk)
      ensures (exists id :: id in ids && id in old(disk).backups) ==> r.Err? && disk == old(disk)
      ensures v.Resolved? && v.plan == p && v.ids == ids && Shows(old(disk), v) ==>
        && TouchesOnly(old(disk), disk, p)
        && (Shows(disk, v) || Shows(disk, Idle(v.contents)))
        && (r.Ok? ==> Shows(disk, Idle(v.contents)))
        && (old(live) && faults == old(faults) ==> r.Ok?)
      ensures OpenAt(old(disk), p) && ids == ListedBy(old(disk), p) ==>
        && (r.Ok? ==> Settled(old(disk), p, disk))
        && (old(live) && faults == old(faults) ==> r.Ok?)
    {
      if !disk.quarantine[MarkerName(p)].RegularFile? {
        return Err(UnsafeFilesystemEntry);
      }
      JournalNamesDiffer(p);
      r := CleanupTransaction(p, ids, v);
      SameJournalBesides(old(disk), disk, p);
      if r.Err? {
        return;
      }
      r := CompleteRecovered(p, ids, v);
    }

    method FinishRecorded(p: string, ids: seq<BackupId>, ghost v: View) returns (r: Outcome)
      requires MarkerName(p) !in disk.quarantine && CompletedName(p) in disk.audit
      modifies `disk, `live, `faults
      ensures disk.audit == old(disk).audit
      ensures (live ==> old(live)) && Noticed(old(faults), faults, r.Ok?) && (r.Ok? ==> live)
      ensures Oddity(old(disk), p).Some? ==> r == Err(Oddity(old(disk), p).value) && disk == old(disk)
      ensures (exists id :: id in ids && id in old(disk).backups) ==> r.Err? && disk == old(disk)
      ensures v.Resolved? && v.plan == p && v.ids == ids && Shows(old(disk), v) ==>
        && TouchesOnly(old(disk), disk, p)
        && (Shows(disk, v) || Shows(disk, Idle(v.contents)))
        && (r.Ok? ==> Shows(disk, Idle(v.contents)))
        && (old(live) && faults == old(faults) ==> r.Ok?)
      ensures OpenAt(old(disk), p) && ids == ListedBy(old(disk), p) ==>
        && (r.Ok? ==> Settled(old(disk), p, disk))
        && (old(live) && faults == old(faults) ==> r.Ok?)
    {
      if !disk.audit[CompletedName(p)].RegularFile? {
        return Err(RecoveryRequired);
      }
      JournalNamesDiffer(p);
      r := CleanupTransaction(p, ids, v);
      SameJournalBesides(old(disk), disk, p);
      if r.Err? {
        return;
      }
      r := RemoveIntent(p, v);
    }

    method UndoUndecided(p: string, ids: seq<BackupId>, ghost v: View) returns (r: Outcome)
      requires !IsDecided(disk, p)
      modifies `disk, `live, `faults
      ensures disk.audit == old(disk).audit
      ensures (live ==> old(live)) && Noticed(old(faults), faults, r.Ok?) && (r.Ok? ==> live)
      ensures !EachInOnePlace(old(disk), p, ids) ==> r.Err? && disk == old(disk)
      ensures v.Pending? && v.plan == p && v.ids == ids && Shows(old(disk), v) ==>
        && TouchesOnly(old(disk), disk, p)
        && (Shows(disk, v) || Shows(disk, Idle(v.contents)))
        && (r.Ok? ==> Shows(disk, Idle(v.contents)))
        && (old(live) && faults == old(faults) ==> r.Ok?)
      ensures OpenAt(old(disk), p) && ids == ListedBy(old(disk), p) ==>
        && (r.Ok? ==> Settled(old(disk), p, disk))
        && (old(live) && faults == old(faults) ==> r.Ok?)
    {
      JournalNamesDiffer(p);
      r := RollbackTransaction(p, ids, v);
      if r.Err? {
        return;
      }
      r := RemoveIntent(p, v);
    }

    method CompleteRecovered(p: string, ids: seq<BackupId>, ghost v: View) returns (r: Outcome)
      modifies `disk, `live, `faults
      ensures CompletionRecorded(old(disk), p, ids, disk, r.Ok?)
      ensures TouchesOnly(old(disk), disk, p) && (live ==> old(live)) && Noticed(old(faults), faults, r.Ok?)
      ensures v.Resolved? && v.plan == p && Shows(old(disk), v) && TrashName(p) !in old(disk).quarantine ==>
        && (Shows(disk, v) || Shows(disk, Idle(v.contents)))
        && (r.Ok? ==> live && Shows(disk, Idle(v.contents)))
        && (old(live) && faults == old(faults) ==> r.Ok?)
      ensures r.Ok? ==>
        live && disk.backups == old(disk).backups && disk.quarantine == old(disk).quarantine - {MarkerName(p)} - {IntentName(p)}
      ensures old(live) && faults == old(faults) && OnlyFileAt(old(disk), MarkerName(p)) && OnlyFileAt(old(disk), IntentName(p)) ==>
        r.Ok?
    {
      r := WriteRetentionAudit(p, ids, Completed);
      CompletionKeepsView(old(disk), disk, p, v);
      if r.Err? && r.error != AuditConflict {
        return;
      }
      r := Finish(p, v);
    }

    /** `reconcile_retention_locked`, which every opening of the repository runs. */
    method ReconcileRetention(ghost v: View)
      returns (r: Outcome, ghost visited: seq<string>, ghost disks: seq<Disk>, ghost passed: bool)
      modifies `disk, `live, `faults
      ensures (live ==> old(live)) && Noticed(old(faults), faults, r.Ok?)
      ensures (exists n :: IsStrandedBy(old(disk), n)) ==> r.Err? && disk == old(disk)
      ensures !IntentsAreFiles(old(disk)) ==> r.Err? && disk == old(disk)
      ensures Shows(old(disk), v) ==> Reconciled(old(disk), v, disk, r.Ok?)
      ensures Shows(old(disk), v) && old(live) && faults == old(faults) ==>
        (r.Ok? <==> !v.Torn? && NoRetentionRun(old(disk)))
      ensures old(live) && faults == old(faults) && IntentsAreFiles(old(disk)) ==>
        IsRecovery(old(disk), visited, disks, passed, disk, r.Ok?)
    {
      visited, disks, passed := [], [disk], true;
      r := Sync();
      if r.Err? {
        return;
      }
      var intents := IntentsIn(disk);
      ghost var claimed := Shows(disk, v);
      if claimed {
        OnlyIntent(disk, v);
      }
      if exists n :: n in intents && !disk.quarantine[n].RegularFile? {
        r := Err(UnsafeFilesystemEntry);
        return;
      }
      assert IntentsAreFiles(disk);
      r, visited, disks := ReconcileIntents(intents, v);
      passed := r.Ok?;
      if r.Err? {
        return;
      }
      if claimed {
        RunsUntouched(old(disk), disk, v);
      }
      r := RejectOrphans();
    }

    /** `reject_orphan_retention_entries`: no retention name may be left. */
    method RejectOrphans() returns (r: Outcome)
      modifies `disk, `live, `faults
      ensures disk == old(disk) && (live ==> old(live)) && Noticed(old(faults), faults, r.Ok?)
      ensures r.Ok? ==> forall n | n in disk.quarantine :: !IsRetentionName(n)
      ensures r == Err(RecoveryRequired) ==> faults == old(faults)
      ensures old(live) && faults == old(faults) ==>
        if forall n | n in disk.quarantine :: !IsRetentionName(n) then r.Ok? else r == Err(RecoveryRequired)
    {
      r := Sync();
      if r.Err? {
        return;
      }
      if exists n :: n in disk.quarantine && IsRetentionName(n) {
        r := Err(RecoveryRequired);
      }
    }

    /** Works through the intent files, in whatever order the directory lists them. */
    method ReconcileIntents(intents: set<string>, ghost v: View)
      returns (r: Outcome, ghost visited: seq<string>, ghost disks: seq<Disk>)
      requires live && forall n | n in intents :: IsIntentName(n)
      modifies `disk, `live, `faults
      ensures (r.Ok? ==> live) && Noticed(old(faults), faults, r.Ok?)
      ensures forall n | Stranded(old(disk), n) && intents == {n} :: r.Err? && disk == old(disk)
      ensures Shows(old(disk), v) && intents == (if v.Idle? then {} else {IntentName(v.plan)}) ==>
        && Resumed(old(disk), v, disk, r.Ok?)
        && (faults == old(faults) ==> (r.Ok? <==> !v.Torn?))
      ensures SetOf(visited) <= intents && if r.Ok? then SetOf(visited) == intents else visited != []
      ensures faults == old(faults) ==> IsPass(old(disk), visited, disks, disk, r.Ok?)
    {
      ghost var claimed := Shows(disk, v) && intents == if v.Idle? then {} else {IntentName(v.plan)};
      visited, disks := [], [disk];
      var todo := intents;
      r := Ok;
      while todo != {}
        decreases todo
        invariant todo <= intents && live && r.Ok? && faults == old(faults)
        invariant todo == intents ==> disk == old(disk)
        invariant todo != intents ==> forall n | Stranded(old(disk), n) :: intents != {n}
        invariant claimed && todo == {} ==> Resumed(old(disk), v, disk, true)
        invariant claimed && todo != {} ==> todo == intents
        invariant SetOf(visited) == intents - todo
        invariant faults == old(faults) ==> IsPass(old(disk), visited, disks, disk, true)
      {
        var n :| n in todo;
        r, visited, disks := ReconcileNext(n, v, old(disk), visited, disks);
        if r.Err? {
          return;
        }
        todo := todo - {n};
      }
    }

    /** One round of the loop. */
    method ReconcileNext(n: string, ghost v: View, ghost start: Disk, ghost names: seq<string>, ghost states: seq<Disk>)
      returns (r: Outcome, ghost visited: seq<string>, ghost disks: seq<Disk>)
      requires live && IsIntentName(n) && n !in SetOf(names)
      modifies `disk, `live, `faults
      ensures (r.Ok? ==> live) && Noticed(old(faults), faults, r.Ok?)
      ensures Stranded(old(disk), n) ==> r.Err? && disk == old(disk)
      ensures !v.Idle? && n == IntentName(v.plan) && Shows(old(disk), v) ==>
        && Resumed(old(disk), v, disk, r.Ok?)
        && (faults == old(faults) ==> (r.Ok? <==> !v.Torn?))
      ensures SetOf(visited) == SetOf(names) + {n} && visited != []
      ensures faults == old(faults) && IsPass(start, names, states, old(disk), true) ==>
        IsPass(start, visited, disks, disk, r.Ok?)
    {
      r := ReconcileTransaction(n, v);
      visited, disks := names + [n], states + [disk];
      SetOfAppend(names, n);
      if faults == old(faults) && IsPass(start, names, states, old(disk), true) {
        PassGoesOn(start, names, states, old(disk), n, disk, r.Ok?);
      }
    }

    /******* Planning and executing *******/

    /** Lists the sealed backups in inventory order; `verify` stands for the signature and
        payload checks of one backup directory and yields its sealing time. */
    method TrustedInventory(verify: (BackupId, Node) -> Option<string>)
      returns (r: Result<seq<TrustedBackup>, RepositoryError>)
      modifies `disk, `live, `faults
      ensures disk == old(disk) && (live ==> old(live)) && Noticed(old(faults), faults, r.Success?)
      ensures r.Success? ==> live && Inventoried(disk.backups, verify, r.value)
      ensures old(live) && faults == old(faults) ==>
        if AllTrusted(disk.backups, verify) then r.Success? else r == Failure(IntegrityFailure)
    {
      var o := Sync();
      if o.Err? {
        return Failure(Io);
      }
      var inventory: seq<TrustedBackup> := [];
      var todo := disk.backups.Keys;
      while todo != {}
        decreases todo
        invariant disk == old(disk) && live && old(live) && faults == old(faults)
        invariant todo <= disk.backups.Keys && |inventory| + |todo| == |disk.backups.Keys|
        invariant forall b :: b in inventory <==> Trusted(disk.backups, verify, b) && b.backupId !in todo
        invariant forall id | id in disk.backups.Keys - todo :: InspectsAs(disk.backups, verify, id)
        invariant DistinctIds(inventory)
      {
        var id :| id in todo;
        if !disk.backups[id].Dir? || !IsIdentifier(id) || verify(id, disk.backups[id]).None? {
          assert !InspectsAs(disk.backups, verify, id);
          return Failure(IntegrityFailure);
        }
        inventory := inventory + [TrustedBackup(id, verify(id, disk.backups[id]).value)];
        todo := todo - {id};
      }
      var sorted := Sort(InventoryLe, inventory);
      SameMultisetSameElements(sorted, inventory);
      DistinctSurvivesReordering(inventory, sorted);
      InventoryLeIsTotalOrder();
      SortIsSorted(InventoryLe, inventory);
      return Success(sorted);
    }

    method ExecuteRetention(
      plan: RetentionPlan, confirmation: string,
      verify: (BackupId, Node) -> Option<string>, digest: PlanBody -> PlanId, ghost c: map<BackupId, Node>)
      returns (r: Result<RetentionOutcome, RepositoryError>)
      modifies `disk, `live, `faults
      ensures TouchesOnly(old(disk), disk, plan.planId) && (live ==> old(live)) && Noticed(old(faults), faults, r.Success?)
      ensures r.Success? ==> IsBound(old(disk), plan, verify, digest)
      ensures RunRecorded(old(disk), plan.planId, plan.body.deleteIds, disk)
      ensures old(live) && faults == old(faults) ==>
        match Objection(old(disk), plan, confirmation, verify, digest)
        case Some(e) => r == Failure(e) && disk == old(disk)
        case None => true
      ensures r.Success? ==> live
      ensures r.Success? || disk != old(disk) ==> IsCurrentPlan(old(disk), plan, verify, digest)
      ensures disk != old(disk) ==> confirmation == ConfirmationPhrase(plan)
      ensures plan.body.deleteIds != [] && ApprovedName(plan.planId) in old(disk).audit ==>
        r.Failure? && disk == old(disk)
      ensures Shows(old(disk), Idle(c)) ==> Executed(old(disk), plan, c, disk, r.Success?)
      ensures plan.body.deleteIds == [] ==> disk == old(disk)
      ensures r.Success? && plan.body.deleteIds != [] ==>
        RanToCompletion(old(disk), plan.planId, plan.body.deleteIds, disk)
      ensures (&& old(live) && faults == old(faults) && Unstarted(old(disk), plan.planId)
               && IsCurrentPlan(old(disk), plan, verify, digest) && confirmation == ConfirmationPhrase(plan)) ==> r.Success?
      ensures r.Success? ==>
        r.value == RetentionOutcome(|plan.body.deleteIds|, |old(disk).backups| - |plan.body.deleteIds|)
      ensures (&& Shows(old(disk), Idle(c)) && old(live) && faults == old(faults)
               && IsCurrentPlan(old(disk), plan, verify, digest) && confirmation == ConfirmationPhrase(plan)
               && ApprovedName(plan.planId) !in old(disk).audit) ==> r.Success?
    {
      assert Without(disk.backups, []) == disk.backups;
      var count := CheckPlan(plan, confirmation, verify, digest);
      if count.Failure? {
        return Failure(count.error);
      }
      r := ExecuteChecked(plan, count.value, c);
    }

    /** The plan has been checked; `count` backups were found. */
    method ExecuteChecked(plan: RetentionPlan, count: nat, ghost c: map<BackupId, Node>)
      returns (r: Result<RetentionOutcome, RepositoryError>)
      requires plan.body.deleteIds != [] ==> CanMoveAll(disk, plan.body.deleteIds)
      modifies `disk, `live, `faults
      ensures TouchesOnly(old(disk), disk, plan.planId) && (live ==> old(live)) && Noticed(old(faults), faults, r.Success?)
      ensures RunRecorded(old(disk), plan.planId, plan.body.deleteIds, disk)
      ensures plan.body.deleteIds == [] ==> disk == old(disk) && live == old(live) && r.Success?
      ensures plan.body.deleteIds != [] ==>
        && (r.Success? ==> live && RanToCompletion(old(disk), plan.planId, plan.body.deleteIds, disk))
        && (ApprovedName(plan.planId) in old(disk).audit ==> r.Failure? && disk == old(disk))
        && (old(live) && faults == old(faults) && Unstarted(old(disk), plan.planId) ==> r.Success?)
      ensures Shows(old(disk), Idle(c)) ==>
        && Executed(old(disk), plan, c, disk, r.Success?)
        && (old(live) && faults == old(faults) && ApprovedName(plan.planId) !in old(disk).audit ==> r.Success?)
      ensures r.Success? ==> r.value == RetentionOutcome(|plan.body.deleteIds|, count - |plan.body.deleteIds|)
    {
      assert Without(disk.backups, []) == disk.backups;
      if plan.body.deleteIds == [] {
        return Success(RetentionOutcome(0, count));
      }
      var o := ExecuteMoves(plan.planId, plan.body.deleteIds, c);
      if o.Err? {
        return Failure(o.error);
      }
      r := Success(RetentionOutcome(|plan.body.deleteIds|, count - |plan.body.deleteIds|));
    }

    /** Everything that `execute_retention` checks before it touches the disk; the result is the
        number of backups. */
    method CheckPlan(
      plan: RetentionPlan, confirmation: string,
      verify: (BackupId, Node) -> Option<string>, digest: PlanBody -> PlanId)
      returns (r: Result<nat, RepositoryError>)
      modifies `disk, `live, `faults
      ensures disk == old(disk) && (live ==> old(live)) && Noticed(old(faults), faults, r.Success?)
      ensures r.Success? ==>
        && live && r.value == |disk.backups| && IsCurrentPlan(disk, plan, verify, digest)
        && IsBound(disk, plan, verify, digest)
        && (plan.body.deleteIds != [] ==> confirmation == ConfirmationPhrase(plan) && CanMoveAll(disk, plan.body.deleteIds))
      ensures old(live) && faults == old(faults) ==>
        match Objection(disk, plan, confirmation, verify, digest)
        case Some(e) => r == Failure(e)
        case None => r.Success?
    {
      var o := Sync();
      if o.Err? {
        return Failure(Io);
      }
      if plan.body.repositoryId != disk.repositoryId {
        return Failure(RepositoryMismatch);
      }
      var inventory := TrustedInventory(verify);
      if inventory.Failure? {
        return Failure(inventory.error);
      }
      var current := BuildRetentionPlan(digest, disk.repositoryId, plan.body.policy, inventory.value);
      forall other | Inventoried(disk.backups, verify, other) ensures other == inventory.value {
        InventoryIsUnique(disk.backups, verify, other, inventory.value);
      }
      PlanRecordsItsInputs(digest, disk.repositoryId, plan.body.policy, inventory.value);
      if current.None? {
        return Failure(IntegrityFailure);
      }
      if current.value != plan {
        return Failure(SnapshotChanged);
      }
      assert IsCurrentPlan(disk, plan, verify, digest);
      if plan.body.deleteIds != [] && confirmation != ConfirmationPhrase(plan) {
        return Failure(ConfirmationMismatch);
      }
      SelectedAreBackups(disk.backups, verify, inventory.value, plan.body.policy);
      return Success(|inventory.value|);
    }
  }
}
