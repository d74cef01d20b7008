/** The part of a repository directory that a retention transaction can touch, and what
    each reachable shape of it means.

    A backup is deleted by a journaled transaction: its directory is moved out of `backups/`
    into a trash directory under `quarantine/`, and only later removed.  `Shows(d, v)` says
    which logical repository `v` the directory tree `d` stands for, so that the whole
    journal can be read as an implementation of one atomic deletion. */
module RetentionDisk {
  import opened Ordering

  /******* Identifiers and names *******/

  type BackupId = string

  predicate IdentifierChar(c: char) {
    'a' <= c <= 'z' || 'A' <= c <= 'Z' || '0' <= c <= '9' || c == '-' || c == '_'
  }

  /** Run, backup and plan identifiers: 1 to 64 letters, digits, '-' or '_'. */
  predicate IsIdentifier(s: string) {
    1 <= |s| <= 64 && forall i | 0 <= i < |s| :: IdentifierChar(s[i])
  }

  /** Identifiers are exactly the texts of one to 64 characters whose codes are those of the ASCII
      letters and digits, of the hyphen and of the underscore. */
  lemma IdentifiersAre(s: string)
    ensures IsIdentifier(s) <==>
      && s != "" && |s| < 65
      && forall i | 0 <= i < |s| ::
           var code := s[i] as int; 48 <= code < 58 || 65 <= code < 91 || 97 <= code < 123 || code == 45 || code == 95
  {
  }

  predicate IsHexDigest(s: string) {
    |s| == 64 && forall i | 0 <= i < |s| :: '0' <= s[i] <= '9' || 'a' <= s[i] <= 'f'
  }

  /** A retention plan identifier is the lower-case hex of a SHA-256 digest. */
  type PlanId = s: string | IsHexDigest(s) witness seq(64, _ => '0')

  const PREFIX: string := "retention-"
  const INTENT_SUFFIX: string := ".intent.json"
  const CLEANUP_SUFFIX: string := ".cleanup-ready"
  const APPROVED_SUFFIX: string := "-approved.json"
  const COMPLETED_SUFFIX: string := "-completed.json"

  function TrashName(p: string): string { PREFIX + p }
  function IntentName(p: string): string { PREFIX + p + INTENT_SUFFIX }
  function MarkerName(p: string): string { PREFIX + p + CLEANUP_SUFFIX }
  function ApprovedName(p: string): string { PREFIX + p + APPROVED_SUFFIX }
  function CompletedName(p: string): string { PREFIX + p + COMPLETED_SUFFIX }

  predicate IsRetentionName(n: string) { PREFIX <= n }

  predicate IsIntentName(n: string) {
    IsRetentionName(n) && |INTENT_SUFFIX| <= |n| && n[|n| - |INTENT_SUFFIX|..] == INTENT_SUFFIX
  }

  /** The plan identifier inside an intent file name, when it parses as an identifier. */
  function PlanOfIntentName(n: string): (p: string)
    requires IsIntentName(n)
  {
    if |PREFIX| + |INTENT_SUFFIX| <= |n| then n[|PREFIX|..|n| - |INTENT_SUFFIX|] else ""
  }

  function JournalNames(p: string): set<string> {
    {IntentName(p), MarkerName(p), TrashName(p)}
  }

  /** The journal names of a plan are three different retention names, only the intent
      looks like an intent, and none of them can be the identifier of a quarantined run. */
  lemma JournalNamesAreDistinct(p: PlanId)
    ensures |TrashName(p)| == 74 && |IntentName(p)| == 86 && |MarkerName(p)| == 88
    ensures forall n | n in JournalNames(p) :: IsRetentionName(n) && !IsIdentifier(n)
    ensures IsIntentName(IntentName(p)) && PlanOfIntentName(IntentName(p)) == p
    ensures !IsIntentName(TrashName(p)) && !IsIntentName(MarkerName(p))
  {
    assert TrashName(p)[|PREFIX|..] == p;
    var n := IntentName(p);
    assert n[|n| - |INTENT_SUFFIX|..] == INTENT_SUFFIX;
    assert n[|PREFIX|..|n| - |INTENT_SUFFIX|] == p;
    assert MarkerName(p)[|MarkerName(p)| - 1] == 'y';
    assert TrashName(p)[|TrashName(p)| - 1] == p[63];
  }

  lemma JournalNamesDiffer(p: string)
    ensures TrashName(p) != IntentName(p) && TrashName(p) != MarkerName(p) && IntentName(p) != MarkerName(p)
  {
    assert |TrashName(p)| < |IntentName(p)| < |MarkerName(p)|;
  }

  /** Different plans never share a journal file or an audit record. */
  lemma PlanNamesAreInjective(p: PlanId, q: PlanId)
    requires p != q
    ensures JournalNames(p) !! JournalNames(q)
    ensures {ApprovedName(p), CompletedName(p)} !! {ApprovedName(q), CompletedName(q)}
  {
    forall s: string ensures TrashName(p) + s != TrashName(q) + s {
      assert (TrashName(p) + s)[|PREFIX|..74] == p;
      assert (TrashName(q) + s)[|PREFIX|..74] == q;
    }
    assert TrashName(p) + INTENT_SUFFIX != TrashName(q) + INTENT_SUFFIX;
    assert TrashName(p) + CLEANUP_SUFFIX != TrashName(q) + CLEANUP_SUFFIX;
    assert TrashName(p) + [] != TrashName(q) + [];
    assert TrashName(p) + [] == TrashName(p) && TrashName(q) + [] == TrashName(q);
    assert TrashName(p) + APPROVED_SUFFIX != TrashName(q) + APPROVED_SUFFIX;
    assert TrashName(p) + COMPLETED_SUFFIX != TrashName(q) + COMPLETED_SUFFIX;
  }

  /** An intent-looking name is never the identifier of a quarantined run. */
  lemma IntentNamesAreNotIdentifiers(n: string)
    requires IsIntentName(n)
    ensures !IsIdentifier(n)
  {
    var dot := |n| - |INTENT_SUFFIX|;
    assert n[dot..][0] == '.';
    assert n[dot] == '.' && !IdentifierChar(n[dot]);
  }

  /******* Directory tree *******/

  datatype AuditState = Approved | Completed

  /** What a regular file parses to.  `Partial` is a file whose bytes were cut short. */
  datatype Document =
    | Partial
    | Blank
    | IntentDoc(formatVersion: nat, planId: string, repositoryId: string, deleteIds: seq<BackupId>)
    | AuditDoc(state: AuditState, planId: string, repositoryId: string, deleteIds: seq<BackupId>)
    | Bytes(data: seq<nat>)

  datatype Node =
    | Dir(entries: map<string, Node>)
    | RegularFile(doc: Document)
    | Symlink

  datatype Disk = Disk(
    repositoryId: string,
    backups: map<BackupId, Node>,
    quarantine: map<string, Node>,
    audit: map<string, Node>)

  predicate HasDuplicateIds(ids: seq<BackupId>) {
    exists i, j :: 0 <= i < j < |ids| && ids[i] == ids[j]
  }

  function TrashEntries(d: Disk, p: string): map<BackupId, Node> {
    var t := TrashName(p);
    if t in d.quarantine && d.quarantine[t].Dir? then d.quarantine[t].entries else map[]
  }

  /******* Logical view *******/

  /** The logical repository behind a directory tree.  `contents` is the set of backups that
      exist as far as a user is concerned: in `Pending` the deletion has not been decided, so
      backups sitting in the trash still count; in `Resolved` it has, so they do not. */
  datatype View =
    | Idle(contents: map<BackupId, Node>)
    | Torn(plan: PlanId, contents: map<BackupId, Node>)
    | Pending(plan: PlanId, ids: seq<BackupId>, contents: map<BackupId, Node>)
    | Resolved(plan: PlanId, ids: seq<BackupId>, contents: map<BackupId, Node>)

  /** A "completed" record never appears without the create-new "approved" record of its plan. */
  ghost predicate Journaled(d: Disk) {
    forall p: PlanId :: CompletedName(p) in d.audit ==>
      ApprovedName(p) in d.audit && d.audit[CompletedName(p)].RegularFile?
  }

  /** Outside the journal of the open plan, retention names belong to quarantined runs only. */
  predicate OnlyRunsBesides(d: Disk, journal: set<string>) {
    forall n | n in d.quarantine && IsRetentionName(n) && n !in journal :: IsIdentifier(n)
  }

  predicate NoRetentionRun(d: Disk) {
    forall n | n in d.quarantine && IsRetentionName(n) :: !IsIdentifier(n)
  }

  predicate HasIntent(d: Disk, p: string, ids: seq<BackupId>) {
    && IntentName(p) in d.quarantine
    && d.quarantine[IntentName(p)] == RegularFile(IntentDoc(1, p, d.repositoryId, ids))
    && ids != [] && !HasDuplicateIds(ids)
  }

  /** Everything in the trash directory is a directory named in the delete list. */
  predicate TrashIsExpected(d: Disk, p: string, ids: seq<BackupId>) {
    && (TrashName(p) in d.quarantine ==> d.quarantine[TrashName(p)].Dir?)
    && forall id | id in TrashEntries(d, p) :: id in ids && TrashEntries(d, p)[id].Dir?
  }

  /** Each selected backup is in exactly one of `backups/` and the trash. */
  predicate EachInOnePlace(d: Disk, p: string, ids: seq<BackupId>) {
    forall id | id in ids ::
      && (id in d.backups ==> d.backups[id].Dir?)
      && (id in d.backups <==> id !in TrashEntries(d, p))
  }

  predicate Undecided(d: Disk, p: string, ids: seq<BackupId>) {
    && MarkerName(p) !in d.quarantine
    && CompletedName(p) !in d.audit
    && TrashIsExpected(d, p, ids)
    && EachInOnePlace(d, p, ids)
  }

  predicate Decided(d: Disk, p: string, ids: seq<BackupId>) {
    && (if MarkerName(p) in d.quarantine then d.quarantine[MarkerName(p)].RegularFile?
        else CompletedName(p) in d.audit && TrashName(p) !in d.quarantine)
    && TrashIsExpected(d, p, ids)
    && forall id | id in ids :: id !in d.backups
  }

  /** The directory tree `d` stands for the logical repository `v`. */
  ghost predicate Shows(d: Disk, v: View) {
    && Journaled(d)
    && match v
       case Idle(c) => OnlyRunsBesides(d, {}) && c == d.backups
       case Torn(p, c) =>
         && OnlyRunsBesides(d, {IntentName(p)}) && ApprovedName(p) in d.audit
         && IntentName(p) in d.quarantine && d.quarantine[IntentName(p)] == RegularFile(Partial)
         && c == d.backups
       case Pending(p, ids, c) =>
         && OnlyRunsBesides(d, JournalNames(p)) && ApprovedName(p) in d.audit
         && HasIntent(d, p, ids) && Undecided(d, p, ids)
         && c == d.backups + TrashEntries(d, p)
       case Resolved(p, ids, c) =>
         && OnlyRunsBesides(d, JournalNames(p)) && ApprovedName(p) in d.audit
         && HasIntent(d, p, ids) && Decided(d, p, ids)
         && c == d.backups
  }

  /** A directory tree stands for at most one logical repository. */
  lemma ViewIsUnique(d: Disk, v: View, w: View)
    requires Shows(d, v) && Shows(d, w)
    ensures v == w
  {
    if !v.Idle? {
      JournalNamesAreDistinct(v.plan);
    }
    if !w.Idle? {
      JournalNamesAreDistinct(w.plan);
    }
    if !v.Idle? && !w.Idle? && v.plan != w.plan {
      PlanNamesAreInjective(v.plan, w.plan);
    }
  }

  /** The deletion of `ids` from a logical repository. */
  function Without(c: map<BackupId, Node>, ids: seq<BackupId>): map<BackupId, Node> { c - SetOf(ids) }
}
