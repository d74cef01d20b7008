/** Recovery from several open transactions at once: a plan that was interrupted beside another
    one that had been abandoned, and so on.  Reconciliation visits their intents in the order in
    which the directory lists them; as long as no two plans list the same backup, it settles
    every one of them, each by its own evidence. */
module RetentionRecovery {
  import opened Wrappers
  import opened Ordering
  import opened RetentionDisk
  import opened RetentionJournal

  /******* Many open plans *******/

  predicate InJournalOf(n: string, plans: set<PlanId>) { exists p :: p in plans && n in JournalNames(p) }

  predicate NothingShared(d: Disk, p: string, q: string) {
    forall id | id in ListedBy(d, p) :: id !in ListedBy(d, q)
  }

  /** Exactly the plans `plans` are open, each with a whole intent, and no two of them list the
      same backup. */
  ghost predicate ManyOpen(d: Disk, plans: set<PlanId>) {
    && (forall p | p in plans :: OpenAt(d, p))
    && (forall p, q | p in plans && q in plans && p != q :: NothingShared(d, p, q))
    && (forall n | n in d.quarantine && IsRetentionName(n) :: IsIdentifier(n) || InJournalOf(n, plans))
  }

  /** The backups that plan `p` lists are all gone if it was decided, and all there otherwise. */
  predicate ListIsSettled(d: Disk, p: string, backups: map<BackupId, Node>) {
    forall id | id in ListedBy(d, p) ::
      if IsDecided(d, p) then id !in backups
      else id in d.backups + TrashEntries(d, p) && id in backups && backups[id] == (d.backups + TrashEntries(d, p))[id]
  }

  /** The completion of plan `p` is on record, with the plan's own list, if it was decided. */
  predicate RecordIsSettled(d: Disk, p: string, audit: map<string, Node>) {
    if MarkerName(p) in d.quarantine && CompletedName(p) !in d.audit then
      CompletedName(p) in audit &&
      audit[CompletedName(p)] == RegularFile(AuditDoc(Completed, p, d.repositoryId, ListedBy(d, p)))
    else SameAt(d.audit, audit, CompletedName(p))
  }

  predicate ListedByNone(d: Disk, plans: set<PlanId>, id: BackupId) {
    forall p | p in plans :: id !in ListedBy(d, p)
  }

  /** From `d`, every plan of `plans` was finished or undone, and nothing else was touched. */
  ghost predicate AllSettled(d: Disk, plans: set<PlanId>, e: Disk) {
    && e.repositoryId == d.repositoryId && d.audit.Keys <= e.audit.Keys
    && (forall n :: n in e.quarantine <==> n in d.quarantine && !InJournalOf(n, plans))
    && (forall n | n in e.quarantine :: e.quarantine[n] == d.quarantine[n])
    && (forall p | p in plans :: ListIsSettled(d, p, e.backups) && RecordIsSettled(d, p, e.audit))
    && (forall id | ListedByNone(d, plans, id) :: SameAt(d.backups, e.backups, id))
  }

  predicate SameAt<T(==)>(a: map<string, T>, b: map<string, T>, x: string) {
    (x in a <==> x in b) && (x in a ==> a[x] == b[x])
  }

  /** Plan `p` stands in `e` as it did in `d`. */
  ghost predicate SamePlan(d: Disk, p: string, e: Disk) {
    && e.repositoryId == d.repositoryId
    && (forall n | n in JournalNames(p) :: SameAt(d.quarantine, e.quarantine, n))
    && SameAt(d.audit, e.audit, CompletedName(p))
    && forall id | id in ListedBy(d, p) :: SameAt(d.backups, e.backups, id)
  }

  lemma SamePlanStaysOpen(d: Disk, p: PlanId, e: Disk)
    requires OpenAt(d, p) && SamePlan(d, p, e)
    ensures OpenAt(e, p) && ListedBy(e, p) == ListedBy(d, p) && IsDecided(e, p) == IsDecided(d, p)
    ensures TrashEntries(e, p) == TrashEntries(d, p)
  {
    assert SameAt(d.quarantine, e.quarantine, IntentName(p)) && SameAt(d.quarantine, e.quarantine, MarkerName(p));
    assert SameAt(d.quarantine, e.quarantine, TrashName(p));
  }

  /** What settling `p` leaves alone. */
  lemma SettlingTouchesOnlyItsOwn(d: Disk, p: PlanId, e: Disk)
    requires OpenAt(d, p) && Settled(d, p, e)
    ensures forall n | n !in JournalNames(p) :: SameAt(d.quarantine, e.quarantine, n)
    ensures forall q: PlanId | q != p :: SameAt(d.audit, e.audit, CompletedName(q))
    ensures forall id | id !in ListedBy(d, p) :: SameAt(d.backups, e.backups, id)
    ensures ListIsSettled(d, p, e.backups) && RecordIsSettled(d, p, e.audit)
  {
    var records := {ApprovedName(p), CompletedName(p)};
    forall q: PlanId | q != p ensures SameAt(d.audit, e.audit, CompletedName(q)) {
      PlanNamesAreInjective(p, q);
      assert CompletedName(q) !in records;
      assert CompletedName(q) in d.audit <==> CompletedName(q) in d.audit - records;
      assert CompletedName(q) in e.audit <==> CompletedName(q) in e.audit - records;
    }
  }

  lemma SettlingOneKeepsAnother(d: Disk, p: PlanId, q: PlanId, e: Disk, f: Disk)
    requires p != q && OpenAt(e, p) && Settled(e, p, f) && SamePlan(d, q, e)
    requires forall id | id in ListedBy(d, q) :: id !in ListedBy(e, p)
    ensures SamePlan(d, q, f)
  {
    SettlingTouchesOnlyItsOwn(e, p, f);
    PlanNamesAreInjective(p, q);
    forall n | n in JournalNames(q) ensures SameAt(d.quarantine, f.quarantine, n) {
      assert n !in JournalNames(p);
      assert SameAt(d.quarantine, e.quarantine, n) && SameAt(e.quarantine, f.quarantine, n);
    }
    forall id | id in ListedBy(d, q) ensures SameAt(d.backups, f.backups, id) {
      assert SameAt(d.backups, e.backups, id) && SameAt(e.backups, f.backups, id);
    }
  }

  /** `rest` are the plans still to be settled. */
  ghost predicate IsSettling(d: Disk, plans: set<PlanId>, rest: set<PlanId>, e: Disk) {
    && ManyOpen(d, plans) && rest <= plans && AllSettled(d, plans - rest, e)
    && forall p | p in rest :: SamePlan(d, p, e)
  }

  lemma OneMoreSettled(d: Disk, plans: set<PlanId>, rest: set<PlanId>, p: PlanId, e: Disk, f: Disk)
    requires IsSettling(d, plans, rest, e) && p in rest && Settled(e, p, f)
    ensures IsSettling(d, plans, rest - {p}, f)
  {
    SamePlanStaysOpen(d, p, e);
    forall q | q in plans && q != p ensures NothingShared(d, p, q) && NothingShared(d, q, p) {
      assert p in plans;
    }
    forall q | q in rest - {p} ensures SamePlan(d, q, f) {
      SettlingOneKeepsAnother(d, p, q, e, f);
    }
    assert plans - (rest - {p}) == (plans - rest) + {p};
    SettlingExtends(d, plans - rest, p, e, f);
  }

  lemma SettlingExtends(d: Disk, done: set<PlanId>, p: PlanId, e: Disk, f: Disk)
    requires AllSettled(d, done, e) && p !in done && forall q | q in done :: NothingShared(d, q, p)
    requires OpenAt(d, p) && SamePlan(d, p, e) && Settled(e, p, f)
    ensures AllSettled(d, done + {p}, f)
  {
    SamePlanStaysOpen(d, p, e);
    SettlingTouchesOnlyItsOwn(e, p, f);
    JournalsDropped(d, done, p, e, f);
    ListsSettled(d, done, p, e, f);
    UnlistedUntouched(d, done, p, e, f);
  }

  lemma UnlistedUntouched(d: Disk, done: set<PlanId>, p: PlanId, e: Disk, f: Disk)
    requires forall id | ListedByNone(d, done, id) :: SameAt(d.backups, e.backups, id)
    requires forall id | id !in ListedBy(d, p) :: SameAt(e.backups, f.backups, id)
    ensures forall id | ListedByNone(d, done + {p}, id) :: SameAt(d.backups, f.backups, id)
  {
    forall id | ListedByNone(d, done + {p}, id) ensures SameAt(d.backups, f.backups, id) {
      assert p in done + {p} && id !in ListedBy(d, p);
      assert ListedByNone(d, done, id);
      assert SameAt(d.backups, e.backups, id) && SameAt(e.backups, f.backups, id);
    }
  }

  lemma JournalsDropped(d: Disk, done: set<PlanId>, p: PlanId, e: Disk, f: Disk)
    requires AllSettled(d, done, e) && f.quarantine == e.quarantine - JournalNames(p)
    ensures forall n :: n in f.quarantine <==> n in d.quarantine && !InJournalOf(n, done + {p})
    ensures forall n | n in f.quarantine :: f.quarantine[n] == d.quarantine[n]
  {
    forall n ensures InJournalOf(n, done + {p}) <==> InJournalOf(n, done) || n in JournalNames(p) {
      assert p in done + {p};
    }
  }

  lemma ListsSettled(d: Disk, done: set<PlanId>, p: PlanId, e: Disk, f: Disk)
    requires AllSettled(d, done, e) && OpenAt(d, p) && SamePlan(d, p, e)
    requires ListIsSettled(e, p, f.backups) && RecordIsSettled(e, p, f.audit)
    requires forall q | q in done :: NothingShared(d, q, p) && SameAt(e.audit, f.audit, CompletedName(q))
    requires forall id | id !in ListedBy(d, p) :: SameAt(e.backups, f.backups, id)
    ensures forall q | q in done + {p} :: ListIsSettled(d, q, f.backups) && RecordIsSettled(d, q, f.audit)
  {
    forall q | q in done + {p} ensures ListIsSettled(d, q, f.backups) && RecordIsSettled(d, q, f.audit) {
      if q in done {
        assert ListIsSettled(d, q, e.backups) && NothingShared(d, q, p);
        assert forall id | id in ListedBy(d, q) :: SameAt(e.backups, f.backups, id);
      } else {
        ListSettledFrom(d, p, e, f);
      }
    }
  }

  lemma ListSettledFrom(d: Disk, p: PlanId, e: Disk, f: Disk)
    requires OpenAt(d, p) && SamePlan(d, p, e) && ListIsSettled(e, p, f.backups) && RecordIsSettled(e, p, f.audit)
    ensures ListIsSettled(d, p, f.backups) && RecordIsSettled(d, p, f.audit)
  {
    SamePlanStaysOpen(d, p, e);
    assert SameAt(d.quarantine, e.quarantine, MarkerName(p));
    forall id | id in ListedBy(d, p) ensures SameAt(d.backups + TrashEntries(d, p), e.backups + TrashEntries(e, p), id) {
      assert SameAt(d.backups, e.backups, id);
    }
  }

  function IntentsOf(plans: set<PlanId>): set<string> { set p | p in plans :: IntentName(p) }

  lemma IntentNameIsInjective(p: PlanId, q: PlanId)
    requires IntentName(p) == IntentName(q)
    ensures p == q
  {
    if p != q {
      PlanNamesAreInjective(p, q);
    }
  }

  /** The intent files are those of the open plans. */
  lemma IntentsOfOpenPlans(d: Disk, plans: set<PlanId>)
    requires ManyOpen(d, plans)
    ensures IntentsIn(d) == IntentsOf(plans)
    ensures forall n | n in IntentsOf(plans) :: d.quarantine[n].RegularFile?
  {
    forall n | n in d.quarantine && IsIntentName(n) ensures n in IntentsOf(plans) {
      IntentNamesAreNotIdentifiers(n);
      IntentOfSome(n, plans);
    }
    forall p | p in plans
      ensures IntentName(p) in d.quarantine && IsIntentName(IntentName(p)) && d.quarantine[IntentName(p)].RegularFile?
    {
      IntentIsThere(d, p);
    }
  }

  lemma IntentOfSome(n: string, plans: set<PlanId>)
    requires IsIntentName(n) && InJournalOf(n, plans)
    ensures n in IntentsOf(plans)
  {
    var p :| p in plans && n in JournalNames(p);
    JournalNamesAreDistinct(p);
  }

  lemma IntentIsThere(d: Disk, p: PlanId)
    requires OpenAt(d, p)
    ensures IntentName(p) in d.quarantine && IsIntentName(IntentName(p)) && d.quarantine[IntentName(p)].RegularFile?
    ensures PlanOfIntentName(IntentName(p)) == p
  {
    JournalNamesAreDistinct(p);
  }

  lemma NextIntent(d: Disk, plans: set<PlanId>, rest: set<PlanId>, e: Disk, n: string) returns (p: PlanId)
    requires IsSettling(d, plans, rest, e) && n in IntentsOf(rest)
    ensures p in rest && n == IntentName(p) && IsIntentName(n) && PlanOfIntentName(n) == p && OpenAt(e, p)
  {
    p :| p in rest && IntentName(p) == n;
    SamePlanStaysOpen(d, p, e);
    IntentIsThere(e, p);
  }

  /** When all plans are settled, only quarantined runs can still bear a retention name. */
  lemma OnlyRunsAreLeft(d: Disk, plans: set<PlanId>, e: Disk)
    requires IsSettling(d, plans, {}, e)
    ensures AllSettled(d, plans, e)
    ensures NoRetentionRun(d) <==> forall n | n in e.quarantine :: !IsRetentionName(n)
  {
    assert plans - {} == plans;
    forall n | n in d.quarantine && IsIdentifier(n) ensures n in e.quarantine {
      if p :| p in plans && n in JournalNames(p) {
        JournalNamesAreDistinct(p);
      }
    }
  }

  /******* How several plans come to be open *******/

  /** The open transaction of a view is one open plan. */
  lemma OneIsOpen(d: Disk, v: View)
    requires Shows(d, v) && (v.Pending? || v.Resolved?)
    ensures ManyOpen(d, {v.plan})
  {
    JournalNamesAreDistinct(v.plan);
    assert forall n | n in JournalNames(v.plan) :: InJournalOf(n, {v.plan});
  }

  /** A further plan, left open beside others that list none of its backups, makes one more. */
  lemma AnotherOpens(d: Disk, plans: set<PlanId>, q: PlanId, e: Disk)
    requires ManyOpen(d, plans) && q !in plans && OpenAt(e, q) && TouchesOnly(d, e, q)
    requires forall id | id !in ListedBy(e, q) :: SameAt(d.backups, e.backups, id)
    requires forall id | id in ListedBy(e, q) :: ListedByNone(d, plans, id)
    ensures ManyOpen(e, plans + {q})
  {
    forall p | p in plans ensures SamePlan(d, p, e) && OpenAt(e, p) && ListedBy(e, p) == ListedBy(d, p) {
      BesideAnother(d, plans, p, q, e);
      SamePlanStaysOpen(d, p, e);
    }
    forall p, r | p in plans + {q} && r in plans + {q} && p != r ensures NothingShared(e, p, r) {
      assert p in plans && r in plans ==> NothingShared(d, p, r);
    }
    forall n | n in e.quarantine && IsRetentionName(n) ensures IsIdentifier(n) || InJournalOf(n, plans + {q}) {
      if n in JournalNames(q) {
        assert q in plans + {q};
      } else {
        assert n in e.quarantine - JournalNames(q) && n in d.quarantine;
      }
    }
  }

  lemma BesideAnother(d: Disk, plans: set<PlanId>, p: PlanId, q: PlanId, e: Disk)
    requires p in plans && p != q && TouchesOnly(d, e, q)
    requires forall id | id !in ListedBy(e, q) :: SameAt(d.backups, e.backups, id)
    requires forall id | id in ListedBy(e, q) :: ListedByNone(d, plans, id)
    ensures SamePlan(d, p, e)
  {
    PlanNamesAreInjective(p, q);
    forall n | n in JournalNames(p) ensures SameAt(d.quarantine, e.quarantine, n) {
      assert n in d.quarantine <==> n in d.quarantine - JournalNames(q);
      assert n in e.quarantine <==> n in e.quarantine - JournalNames(q);
    }
    var records, n := {ApprovedName(q), CompletedName(q)}, CompletedName(p);
    assert n !in records;
    assert n in d.audit <==> n in d.audit - records;
    assert n in e.audit <==> n in e.audit - records;
  }

  /******* A pass over the intents *******/

  function LeftAfter(plans: set<PlanId>, visited: seq<string>): set<PlanId> {
    set p | p in plans && IntentName(p) !in visited
  }

  lemma VisitedOneMore(plans: set<PlanId>, visited: seq<string>, k: nat, p: PlanId)
    requires k < |visited| && visited[k] == IntentName(p)
    ensures LeftAfter(plans, visited[..k + 1]) == LeftAfter(plans, visited[..k]) - {p}
  {
    assert visited[..k + 1] == visited[..k] + [visited[k]];
    forall q | q in plans && IntentName(q) == IntentName(p) ensures q == p {
      IntentNameIsInjective(p, q);
    }
  }

  /** However far a pass without failing steps has come, the plans visited are settled and the
      others untouched. */
  lemma {:induction false} PassSettles(
    d: Disk, plans: set<PlanId>, visited: seq<string>, disks: seq<Disk>, e: Disk, ok: bool, k: nat)
    requires ManyOpen(d, plans) && IsPass(d, visited, disks, e, ok) && k <= |visited|
    requires forall i | 0 <= i < |visited| :: visited[i] in IntentsOf(plans)
    ensures IsSettling(d, plans, LeftAfter(plans, visited[..k]), disks[k])
    ensures k == |visited| > 0 ==> ok
  {
    if k == 0 {
      NothingSettledYet(d, plans);
      assert visited[..0] == [];
    } else {
      var i := k - 1;
      PassSettles(d, plans, visited, disks, e, ok, i);
      var okay := RoundOfPass(d, visited, disks, e, ok, i);
      RoundSettles(d, plans, visited, i, disks[i], disks[i + 1], okay);
    }
  }

  lemma RoundOfPass(d: Disk, visited: seq<string>, disks: seq<Disk>, e: Disk, ok: bool, i: nat) returns (okay: bool)
    requires IsPass(d, visited, disks, e, ok) && i < |visited|
    ensures IsIntentName(visited[i]) && okay == (ok || i < |visited| - 1)
    ensures IsRound(disks[i], visited[i], disks[i + 1], okay)
  {
    okay := ok || i < |visited| - 1;
  }

  lemma RoundSettles(d: Disk, plans: set<PlanId>, visited: seq<string>, k: nat, e: Disk, f: Disk, ok: bool)
    requires k < |visited| && NoRepeats(visited) && visited[k] in IntentsOf(plans) && IsIntentName(visited[k])
    requires IsSettling(d, plans, LeftAfter(plans, visited[..k]), e) && IsRound(e, visited[k], f, ok)
    ensures ok && IsSettling(d, plans, LeftAfter(plans, visited[..k + 1]), f)
  {
    var rest := LeftAfter(plans, visited[..k]);
    NotYetVisited(plans, visited, k);
    var p := NextIntent(d, plans, rest, e, visited[k]);
    OneMoreSettled(d, plans, rest, p, e, f);
    VisitedOneMore(plans, visited, k, p);
  }

  lemma NotYetVisited(plans: set<PlanId>, visited: seq<string>, k: nat)
    requires k < |visited| && NoRepeats(visited) && visited[k] in IntentsOf(plans)
    ensures visited[k] in IntentsOf(LeftAfter(plans, visited[..k]))
  {
    var p :| p in plans && IntentName(p) == visited[k];
    assert IntentName(p) !in visited[..k];
    assert p in LeftAfter(plans, visited[..k]);
  }

  lemma NothingSettledYet(d: Disk, plans: set<PlanId>)
    requires ManyOpen(d, plans)
    ensures IsSettling(d, plans, LeftAfter(plans, []), d)
  {
    assert LeftAfter(plans, []) == plans;
    assert plans - plans == {};
  }

  /** From a tree with any number of open plans that share no backup, a recovery in which no step
      fails finishes or undoes every one of them, whatever the order, and leaves no retention
      entry; it succeeds unless a quarantined run bears a retention name. */
  lemma AllPlansAreSettled(
    d: Disk, plans: set<PlanId>, visited: seq<string>, disks: seq<Disk>, passed: bool, e: Disk, ok: bool)
    requires ManyOpen(d, plans) && IsRecovery(d, visited, disks, passed, e, ok)
    ensures AllSettled(d, plans, e) && (ok <==> NoRetentionRun(d))
  {
    IntentsOfOpenPlans(d, plans);
    forall i | 0 <= i < |visited| ensures visited[i] in IntentsOf(plans) {
      assert visited[i] in SetOf(visited);
    }
    PassSettles(d, plans, visited, disks, e, passed, |visited|);
    assert visited[..|visited|] == visited;
    assert LeftAfter(plans, visited) == {} by {
      forall p | p in plans ensures IntentName(p) in visited {
        assert IntentName(p) in IntentsOf(plans) && IntentName(p) in SetOf(visited);
      }
    }
    OnlyRunsAreLeft(d, plans, e);
  }

  /** The same of the repository's own operation. */
  method RecoverMany(repository: Repository, ghost plans: set<PlanId>) returns (ok: bool)
    modifies repository`disk, repository`live, repository`faults
    ensures ManyOpen(old(repository.disk), plans) && old(repository.live) && repository.faults == old(repository.faults) ==>
      && AllSettled(old(repository.disk), plans, repository.disk)
      && (ok <==> NoRetentionRun(old(repository.disk)))
  {
    ghost var d, live := repository.disk, repository.live;
    if ManyOpen(d, plans) {
      IntentsOfOpenPlans(d, plans);
    }
    var r, visited, disks, passed := repository.ReconcileRetention(Idle(map[]));
    ok := r.Ok?;
    if ManyOpen(d, plans) && live && repository.faults == old(repository.faults) {
      AllPlansAreSettled(d, plans, visited, disks, passed, repository.disk, ok);
    }
  }
}
