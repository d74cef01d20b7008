/** Whole histories of a repository: executions of retention plans, interrupted anywhere, and
    any number of reopenings, interleaved with new backups and quarantined runs. */
module RetentionHistory {
  import opened Wrappers
  import opened Ordering
  import opened RetentionDisk
  import opened RetentionPlanning
  import opened RetentionJournal

  /** `ok` is what the caller saw; a crash shows as `false`. */
  datatype Event =
    | Execute(plan: RetentionPlan, ok: bool)
    | Reopen(ok: bool)
    | Publish(id: BackupId, backup: Node)
    | QuarantineRun(run: string, tree: Node)

  /** The effect of an event, as the contracts of the repository operations state it. */
  ghost predicate Happens(d: Disk, event: Event, e: Disk) {
    match event
    case Execute(plan, ok) =>
      && (forall c | Shows(d, Idle(c)) :: Executed(d, plan, c, e, ok))
      && (plan.body.deleteIds != [] && ApprovedName(plan.planId) in d.audit ==> !ok && e == d)
      && (plan.body.deleteIds == [] ==> e == d)
      && (plan.body.deleteIds != [] && ok ==> RanToCompletion(d, plan.planId, plan.body.deleteIds, e))
    case Reopen(ok) =>
      && (forall v | Shows(d, v) :: Reconciled(d, v, e, ok))
      && ((exists n :: IsStrandedBy(d, n)) ==> !ok && e == d)
    case Publish(id, backup) =>
      id !in d.backups && backup.Dir? && e == d.(backups := d.backups[id := backup])
    case QuarantineRun(run, tree) =>
      IsIdentifier(run) && run !in d.quarantine && e == PutJournal(d, run, tree)
  }

  /** The effect of an event on the logical repository: retention is one atomic deletion,
      recovery changes nothing. */
  ghost predicate Follows(v: View, event: Event, w: View) {
    match event
    case Execute(plan, ok) =>
      && (w.contents == v.contents || w.contents == Without(v.contents, plan.body.deleteIds))
      && (ok ==> w == v.(contents := Without(v.contents, plan.body.deleteIds)))
    case Reopen(ok) => w.contents == v.contents && (w == v || w.Idle?) && (ok ==> w.Idle?)
    case Publish(id, backup) => w.contents == v.contents[id := backup]
    case QuarantineRun(_, _) => w == v
  }

  ghost predicate IsHistory(states: seq<Disk>, events: seq<Event>) {
    && |states| == |events| + 1
    && forall i | 0 <= i < |events| :: Happens(states[i], events[i], states[i + 1])
  }

  /** The open transaction of `v` is undecided and has a backup in common with `ids`. */
  predicate Shares(v: View, ids: seq<BackupId>) {
    v.Pending? && exists id :: id in v.ids && id in ids
  }

  /** The open transaction of `v` is to delete `id`, or has done so. */
  predicate Lists(v: View, id: BackupId) {
    (v.Pending? || v.Resolved?) && id in v.ids
  }

  /** An execution beside an open transaction completes, or does nothing, and shares no backup
      with it; a published backup does not bear an identifier that the transaction lists. */
  ghost predicate IsOrderly(d: Disk, event: Event, e: Disk) {
    match event
    case Execute(plan, ok) =>
      || (exists c :: Shows(d, Idle(c)))
      || e == d
      || (ok && forall v | Shows(d, v) :: !Shares(v, plan.body.deleteIds))
    case Publish(id, _) => forall v | Shows(d, v) :: !Lists(v, id)
    case _ => true
  }

  ghost predicate Orderly(states: seq<Disk>, events: seq<Event>)
    requires |states| == |events| + 1
  {
    forall i | 0 <= i < |events| :: IsOrderly(states[i], events[i], states[i + 1])
  }

  /******* The repository's own operations make such histories *******/

  method RunExecute(
    repository: Repository, plan: RetentionPlan, confirmation: string,
    verify: (BackupId, Node) -> Option<string>, digest: PlanBody -> PlanId)
    returns (ok: bool)
    modifies repository`disk, repository`live, repository`faults
    ensures Happens(old(repository.disk), Execute(plan, ok), repository.disk)
    ensures (ok ==> repository.live) && Noticed(old(repository.faults), repository.faults, ok)
    ensures (&& old(repository.live) && repository.faults == old(repository.faults) && Unstarted(old(repository.disk), plan.planId)
             && IsCurrentPlan(old(repository.disk), plan, verify, digest) && confirmation == ConfirmationPhrase(plan)) ==> ok
  {
    var r := repository.ExecuteRetention(plan, confirmation, verify, digest, repository.disk.backups);
    ok := r.Success?;
  }

  method RunReopen(repository: Repository) returns (ok: bool)
    modifies repository`disk, repository`live, repository`faults
    ensures Happens(old(repository.disk), Reopen(ok), repository.disk)
    ensures Noticed(old(repository.faults), repository.faults, ok)
    ensures forall v | Shows(old(repository.disk), v) && old(repository.live) && repository.faults == old(repository.faults) ::
      ok <==> !v.Torn? && NoRetentionRun(old(repository.disk))
  {
    ghost var v := Idle(map[]);
    if w :| Shows(repository.disk, w) {
      v := w;
    }
    forall w | Shows(repository.disk, w) ensures w == v {
      ViewIsUnique(repository.disk, v, w);
    }
    var r, _, _, _ := repository.ReconcileRetention(v);
    ok := r.Ok?;
  }

  /******* One event *******/

  /** Where a transaction is stranded, the directory tree stands for no logical repository. */
  lemma StrandedShowsNothing(d: Disk, name: string, v: View)
    requires IsStrandedBy(d, name)
    ensures !Shows(d, v)
  {
    if Shows(d, v) {
      OnlyIntent(d, v);
    }
  }

  /** Publishing a backup adds just that backup to the logical repository, unless the open
      transaction lists its identifier: then that transaction is stranded. */
  lemma PublishKeepsShape(d: Disk, v: View, id: BackupId, backup: Node) returns (w: View)
    requires Shows(d, v) && id !in d.backups && backup.Dir?
    ensures w == v.(contents := v.contents[id := backup])
    ensures var e := d.(backups := d.backups[id := backup]);
      if Lists(v, id) then IsStrandedBy(e, IntentName(v.plan)) else Shows(e, w)
  {
    w := v.(contents := v.contents[id := backup]);
    var e := d.(backups := d.backups[id := backup]);
    if Lists(v, id) {
      ListedStrands(d, v, id, backup);
    } else if v.Pending? {
      assert TrashEntries(e, v.plan) == TrashEntries(d, v.plan);
      assert id !in TrashEntries(d, v.plan);
      assert w.contents == e.backups + TrashEntries(e, v.plan);
    }
  }

  lemma ListedStrands(d: Disk, v: View, id: BackupId, backup: Node)
    requires Shows(d, v) && Lists(v, id) && id !in d.backups && backup.Dir?
    ensures IsStrandedBy(d.(backups := d.backups[id := backup]), IntentName(v.plan))
  {
    var e := d.(backups := d.backups[id := backup]);
    OnlyIntent(d, v);
    JournalNamesAreDistinct(v.plan);
    assert id in e.backups && TrashEntries(e, v.plan) == TrashEntries(d, v.plan);
  }

  lemma QuarantineKeepsShape(d: Disk, v: View, run: string, tree: Node)
    requires Shows(d, v) && IsIdentifier(run) && run !in d.quarantine
    ensures Shows(PutJournal(d, run, tree), v)
  {
    if !v.Idle? {
      JournalNamesAreDistinct(v.plan);
      assert run !in JournalNames(v.plan);
      assert TrashEntries(PutJournal(d, run, tree), v.plan) == TrashEntries(d, v.plan);
    }
  }

  /** Every orderly event keeps the repository in a shape that stands for a logical repository,
      and acts on that logical repository as `Follows` says. */
  lemma EventFollows(d: Disk, v: View, event: Event, e: Disk) returns (w: View)
    requires Shows(d, v) && Happens(d, event, e) && IsOrderly(d, event, e)
    ensures Shows(e, w) && Follows(v, event, w)
  {
    match event
    case Execute(plan, ok) =>
      w := ExecutionFollows(d, v, plan, ok, e);
    case Reopen(ok) =>
      assert Reconciled(d, v, e, ok);
      w := if ok || !Shows(e, v) then Idle(v.contents) else v;
    case Publish(id, backup) =>
      w := PublishKeepsShape(d, v, id, backup);
    case QuarantineRun(run, tree) =>
      QuarantineKeepsShape(d, v, run, tree);
      w := v;
  }

  lemma ExecutionFollows(d: Disk, v: View, plan: RetentionPlan, ok: bool, e: Disk) returns (w: View)
    requires Shows(d, v) && Happens(d, Execute(plan, ok), e) && IsOrderly(d, Execute(plan, ok), e)
    ensures Shows(e, w) && Follows(v, Execute(plan, ok), w)
  {
    var c, p, ids := v.contents, plan.planId, plan.body.deleteIds;
    if v.Idle? {
      assert Executed(d, plan, c, e, ok);
      w := if Shows(e, Idle(Without(c, ids))) then Idle(Without(c, ids))
        else if Shows(e, Idle(c)) then Idle(c)
        else if Shows(e, Torn(p, c)) then Torn(p, c)
        else if Shows(e, Pending(p, ids, c)) then Pending(p, ids, c)
        else Resolved(p, ids, Without(c, ids));
    } else if ids == [] || e == d {
      w := v;
      assert Without(c, []) == c;
      if ids != [] && ok {
        NothingToDelete(d, v, plan, e);
      }
    } else {
      forall b ensures !Shows(d, Idle(b)) {
        if Shows(d, Idle(b)) {
          ViewIsUnique(d, v, Idle(b));
        }
      }
      BesideOpenTransaction(d, v, p, ids, e);
      w := v.(contents := Without(c, ids));
    }
  }

  /** A run that completed has changed the disk. */
  lemma NothingToDelete(d: Disk, v: View, plan: RetentionPlan, e: Disk)
    requires Shows(d, v) && Happens(d, Execute(plan, true), e) && plan.body.deleteIds != []
    ensures e != d
  {
    assert ApprovedName(plan.planId) !in d.audit;
  }

  /** A second plan that completes beside an open transaction: if the transaction is undecided
      and the two share a backup, it is stranded; otherwise it stays as it was, over a
      repository from which the second plan's backups are gone. */
  lemma BesideOpenTransaction(d: Disk, v: View, q: PlanId, ids: seq<BackupId>, e: Disk)
    requires Shows(d, v) && RanToCompletion(d, q, ids, e) && (v.Idle? || v.plan != q)
    ensures if Shares(v, ids) then IsStrandedBy(e, IntentName(v.plan))
            else Shows(e, v.(contents := Without(v.contents, ids)))
  {
    assert forall id | id in ids :: id in SetOf(ids);
    RecordsKeepJournaled(d, q, e);
    if v.Idle? {
      assert OnlyRunsBesides(e, {}) by {
        forall n | n in e.quarantine && IsRetentionName(n) ensures IsIdentifier(n) {
          assert n in d.quarantine - JournalNames(q) && n in d.quarantine;
        }
      }
    } else {
      OtherJournalUntouched(d, v, q, e);
      JournalNamesAreDistinct(v.plan);
      if Shares(v, ids) {
        SharedStrands(d, v, q, ids, e);
      } else if v.Pending? {
        UnsharedStays(d, v, q, ids, e);
      }
    }
  }

  lemma RecordsKeepJournaled(d: Disk, q: PlanId, e: Disk)
    requires Journaled(d) && LeavesOnlyRecords(d, q, e) && ApprovedName(q) in e.audit
    ensures Journaled(e)
  {
    forall p: PlanId | CompletedName(p) in e.audit
      ensures ApprovedName(p) in e.audit && e.audit[CompletedName(p)].RegularFile?
    {
      if p != q {
        OtherRecordsUntouched(d, p, q, e);
      }
    }
  }

  lemma OtherRecordsUntouched(d: Disk, p: PlanId, q: PlanId, e: Disk)
    requires TouchesOnly(d, e, q) && p != q
    ensures forall n | n in {ApprovedName(p), CompletedName(p)} ::
      (n in e.audit <==> n in d.audit) && (n in d.audit ==> e.audit[n] == d.audit[n])
  {
    PlanNamesAreInjective(p, q);
    var records := {ApprovedName(q), CompletedName(q)};
    forall n | n in {ApprovedName(p), CompletedName(p)}
      ensures (n in e.audit <==> n in d.audit) && (n in d.audit ==> e.audit[n] == d.audit[n])
    {
      assert n !in records;
      assert n in e.audit <==> n in e.audit - records;
      assert n in d.audit <==> n in d.audit - records;
    }
  }

  /** A run of plan `q` leaves the journal and the records of the open plan alone, and no intent
      of its own. */
  lemma OtherJournalUntouched(d: Disk, v: View, q: PlanId, e: Disk)
    requires Shows(d, v) && !v.Idle? && v.plan != q && LeavesOnlyRecords(d, q, e)
    ensures forall n | n in JournalNames(v.plan) ::
      (n in e.quarantine <==> n in d.quarantine) && (n in d.quarantine ==> e.quarantine[n] == d.quarantine[n])
    ensures TrashEntries(e, v.plan) == TrashEntries(d, v.plan)
    ensures CompletedName(v.plan) in e.audit <==> CompletedName(v.plan) in d.audit
    ensures forall journal :: OnlyRunsBesides(d, journal) ==> OnlyRunsBesides(e, journal)
    ensures forall n | n in e.quarantine && IsIntentName(n) :: n == IntentName(v.plan)
  {
    PlanNamesAreInjective(v.plan, q);
    OtherRecordsUntouched(d, v.plan, q, e);
    forall n | n !in JournalNames(q)
      ensures (n in e.quarantine <==> n in d.quarantine) && (n in d.quarantine ==> e.quarantine[n] == d.quarantine[n])
    {
      assert n in e.quarantine <==> n in e.quarantine - JournalNames(q);
      assert n in d.quarantine <==> n in d.quarantine - JournalNames(q);
    }
    OnlyIntent(d, v);
  }

  lemma SharedStrands(d: Disk, v: View, q: PlanId, ids: seq<BackupId>, e: Disk)
    requires Shows(d, v) && Shares(v, ids) && v.plan != q && RanToCompletion(d, q, ids, e)
    ensures IsStrandedBy(e, IntentName(v.plan))
  {
    OtherJournalUntouched(d, v, q, e);
    JournalNamesAreDistinct(v.plan);
    var id :| id in v.ids && id in ids;
    var i :| 0 <= i < |ids| && ids[i] == id;
    assert id in SetOf(ids) && id in d.backups && id !in e.backups;
    assert !EachInOnePlace(e, v.plan, v.ids);
  }

  lemma UnsharedStays(d: Disk, v: View, q: PlanId, ids: seq<BackupId>, e: Disk)
    requires Shows(d, v) && v.Pending? && !Shares(v, ids) && v.plan != q && RanToCompletion(d, q, ids, e)
    ensures Shows(e, Pending(v.plan, v.ids, Without(v.contents, ids)))
  {
    OtherJournalUntouched(d, v, q, e);
    RecordsKeepJournaled(d, q, e);
    forall id | id in v.ids ensures id !in SetOf(ids) {
      assert id !in ids;
    }
    assert Without(v.contents, ids) == e.backups + TrashEntries(e, v.plan);
  }

  /** The whole history refines a history of the logical repository. */
  lemma {:induction false} HistoryRefines(states: seq<Disk>, events: seq<Event>, v: View) returns (views: seq<View>)
    requires IsHistory(states, events) && Orderly(states, events) && Shows(states[0], v)
    ensures Refines(states, events, views) && views[0] == v
  {
    if events == [] {
      views := [v];
    } else {
      var n := |events| - 1;
      PrefixHistory(states, events, n);
      var before := HistoryRefines(states[..n + 1], events[..n], v);
      assert Shows(states[n], before[n]);
      var w := EventFollows(states[n], before[n], events[n], states[n + 1]);
      views := before + [w];
      ExtendRefinement(states, events, before, w);
    }
  }

  ghost predicate Refines(states: seq<Disk>, events: seq<Event>, views: seq<View>) {
    && |views| == |states| == |events| + 1
    && (forall i | 0 <= i < |states| :: Shows(states[i], views[i]))
    && (forall i | 0 <= i < |events| :: Follows(views[i], events[i], views[i + 1]))
  }

  lemma PrefixHistory(states: seq<Disk>, events: seq<Event>, n: nat)
    requires IsHistory(states, events) && Orderly(states, events) && n <= |events|
    ensures IsHistory(states[..n + 1], events[..n]) && Orderly(states[..n + 1], events[..n])
  {
    forall i | 0 <= i < n ensures Happens(states[..n + 1][i], events[..n][i], states[..n + 1][i + 1]) {
      assert Happens(states[i], events[i], states[i + 1]);
    }
  }

  lemma ExtendRefinement(states: seq<Disk>, events: seq<Event>, before: seq<View>, w: View)
    requires |states| == |events| + 1 && events != []
    requires Refines(states[..|events|], events[..|events| - 1], before)
    requires Shows(states[|events|], w) && Follows(before[|events| - 1], events[|events| - 1], w)
    ensures Refines(states, events, before + [w])
  {
    var n, views := |events| - 1, before + [w];
    forall i | 0 <= i < |events| ensures Follows(views[i], events[i], views[i + 1]) {
      if i < n {
        assert Follows(before[i], events[..n][i], before[i + 1]);
      }
    }
    forall i | 0 <= i < |states| ensures Shows(states[i], views[i]) {
      if i <= n {
        assert Shows(states[..n + 1][i], before[i]);
      }
    }
  }

  /** No backup is ever lost or altered except by a plan that lists it: between any two moments
      of a history, a logical backup is unchanged or was in the delete list of an execution. */
  lemma BackupsAreNeverLost(
    states: seq<Disk>, events: seq<Event>, i: nat, j: nat, v: View, w: View, id: BackupId)
    requires IsHistory(states, events) && Orderly(states, events) && i <= j < |states|
    requires Shows(states[i], v) && Shows(states[j], w) && id in v.contents
    ensures
      || (id in w.contents && w.contents[id] == v.contents[id])
      || exists k | i <= k < j :: events[k].Execute? && id in events[k].plan.body.deleteIds
  {
    var later, laterEvents := states[i..], events[i..];
    assert IsHistory(later, laterEvents) && Orderly(later, laterEvents) by {
      forall k | 0 <= k < |laterEvents|
        ensures Happens(later[k], laterEvents[k], later[k + 1]) && IsOrderly(later[k], laterEvents[k], later[k + 1])
      {
        assert Happens(states[i + k], events[i + k], states[i + k + 1]);
        assert IsOrderly(states[i + k], events[i + k], states[i + k + 1]);
      }
    }
    var views := HistoryRefines(later, laterEvents, v);
    forall k | 0 <= k < |laterEvents| && laterEvents[k].Publish? ensures laterEvents[k].id !in views[k].contents {
      assert Happens(later[k], laterEvents[k], later[k + 1]) && IsOrderly(later[k], laterEvents[k], later[k + 1]);
      PublishedIdIsNew(later[k], views[k], laterEvents[k].id);
    }
    ViewIsUnique(later[j - i], views[j - i], w);
    KeptUnlessListed(laterEvents, views, j - i, id);
    if k :| 0 <= k < j - i && laterEvents[k].Execute? && id in laterEvents[k].plan.body.deleteIds {
      assert events[i + k] == laterEvents[k];
    }
  }

  lemma PublishedIdIsNew(d: Disk, v: View, id: BackupId)
    requires Shows(d, v) && id !in d.backups && !Lists(v, id)
    ensures id !in v.contents
  {
  }

  lemma {:induction false} KeptUnlessListed(events: seq<Event>, views: seq<View>, j: nat, id: BackupId)
    requires |views| == |events| + 1 && j < |views|
    requires forall k | 0 <= k < |events| :: Follows(views[k], events[k], views[k + 1])
    requires forall k | 0 <= k < |events| && events[k].Publish? :: events[k].id !in views[k].contents
    requires id in views[0].contents
    ensures
      || (id in views[j].contents && views[j].contents[id] == views[0].contents[id])
      || exists k | 0 <= k < j :: events[k].Execute? && id in events[k].plan.body.deleteIds
  {
    if j > 0 {
      KeptUnlessListed(events, views, j - 1, id);
      assert Follows(views[j - 1], events[j - 1], views[j]);
      if events[j - 1].Execute? {
        assert id in SetOf(events[j - 1].plan.body.deleteIds) ==> id in events[j - 1].plan.body.deleteIds;
      }
    }
  }

  /** Retention is all-or-nothing under crashes.  After one execution, interrupted anywhere, and
      any number of reopenings, themselves interrupted anywhere, the first reopening that
      completes finds every selected backup in place with its contents, or none of them; every
      other backup is untouched. */
  lemma AllOrNothing(states: seq<Disk>, events: seq<Event>, c: map<BackupId, Node>)
    requires IsHistory(states, events) && Shows(states[0], Idle(c))
    requires events != [] && events[0].Execute?
    requires forall i | 1 <= i < |events| :: events[i].Reopen?
    ensures var ids := events[0].plan.body.deleteIds;
      forall i | 1 <= i < |events| && events[i].ok ::
        states[i + 1].backups == c || states[i + 1].backups == Without(c, ids)
    ensures events[0].ok ==> states[|events|].backups == Without(c, events[0].plan.body.deleteIds)
  {
    var views := HistoryRefines(states, events, Idle(c));
    RecoveryKeepsContents(events, views, 1, |events|);
    forall i | 1 <= i < |events| && events[i].ok
      ensures states[i + 1].backups == c || states[i + 1].backups == Without(c, events[0].plan.body.deleteIds)
    {
      RecoveryKeepsContents(events, views, 1, i + 1);
      assert Follows(views[i], events[i], views[i + 1]);
      assert Follows(views[0], events[0], views[1]);
    }
  }

  lemma {:induction false} RecoveryKeepsContents(events: seq<Event>, views: seq<View>, i: nat, j: nat)
    requires |views| == |events| + 1 && i <= j < |views|
    requires forall k | 0 <= k < |events| :: Follows(views[k], events[k], views[k + 1])
    requires forall k | i <= k < j :: events[k].Reopen?
    ensures views[j].contents == views[i].contents
    ensures views[i].Idle? ==> views[j].Idle?
    decreases j - i
  {
    if i < j {
      RecoveryKeepsContents(events, views, i, j - 1);
      assert Follows(views[j - 1], events[j - 1], views[j]);
    }
  }

  /** Recovery converges: after a reopening that succeeded, another one changes nothing. */
  lemma SecondReopenIsNoop(d: Disk, v: View, e: Disk, ok: bool, f: Disk)
    requires Shows(d, v) && Happens(d, Reopen(true), e) && Happens(e, Reopen(ok), f)
    ensures f == e
  {
    assert Reconciled(d, v, e, true);
    assert Reconciled(e, Idle(v.contents), f, ok);
  }

  /** The approval record outlives everything, so a plan that was once started, even if it was
      rolled back, is refused from then on. */
  lemma StartedPlansAreRefused(states: seq<Disk>, events: seq<Event>, v: View, i: nat, j: nat)
    requires IsHistory(states, events) && Orderly(states, events) && Shows(states[0], v)
    requires i < j < |events| && events[i].Execute? && events[j].Execute?
    requires events[j].plan == events[i].plan && events[i].plan.body.deleteIds != []
    requires states[i + 1] != states[i]
    ensures !events[j].ok && states[j + 1] == states[j]
  {
    AuditOnlyGrows(states, events, v, i + 1, j);
    StartedThenRefused(states[i], events[i], states[i + 1], states[j], events[j], states[j + 1]);
  }

  lemma StartedThenRefused(d: Disk, first: Event, e: Disk, f: Disk, second: Event, g: Disk)
    requires first.Execute? && Happens(d, first, e) && IsOrderly(d, first, e) && e != d
    requires second.Execute? && Happens(f, second, g) && e.audit.Keys <= f.audit.Keys
    requires second.plan == first.plan && first.plan.body.deleteIds != []
    ensures !second.ok && g == f
  {
    StartedPlanIsApproved(d, first, e);
  }

  lemma StartedPlanIsApproved(d: Disk, event: Event, e: Disk)
    requires event.Execute? && Happens(d, event, e) && IsOrderly(d, event, e)
    ensures e != d ==> ApprovedName(event.plan.planId) in e.audit
    ensures d.audit.Keys <= e.audit.Keys
  {
    if c :| Shows(d, Idle(c)) {
      assert Executed(d, event.plan, c, e, event.ok);
    }
  }

  lemma AuditOnlyGrows(states: seq<Disk>, events: seq<Event>, v: View, i: nat, j: nat)
    requires IsHistory(states, events) && Orderly(states, events) && Shows(states[0], v) && i <= j < |states|
    ensures states[i].audit.Keys <= states[j].audit.Keys
  {
    var views := HistoryRefines(states, events, v);
    AuditGrows(states, events, views, i, j);
  }

  lemma {:induction false} AuditGrows(states: seq<Disk>, events: seq<Event>, views: seq<View>, i: nat, j: nat)
    requires IsHistory(states, events) && Orderly(states, events) && i <= j < |states|
    requires Refines(states, events, views)
    ensures states[i].audit.Keys <= states[j].audit.Keys
    decreases j - i
  {
    if i < j {
      AuditGrows(states, events, views, i, j - 1);
      assert Happens(states[j - 1], events[j - 1], states[j]);
      if events[j - 1].Execute? {
        StartedPlanIsApproved(states[j - 1], events[j - 1], states[j]);
      } else if events[j - 1].Reopen? {
        assert Reconciled(states[j - 1], views[j - 1], states[j], events[j - 1].ok);
      }
    }
  }

  /******* Limits of the journal *******/

  /** A crash while the intent is being written leaves a torn intent; from then on every
      reopening fails, and no backup is touched. */
  lemma {:induction false} TornIntentBlocksEveryReopen(states: seq<Disk>, events: seq<Event>, v: View, i: nat)
    requires IsHistory(states, events) && Shows(states[0], v) && v.Torn? && i <= |events|
    requires forall k | 0 <= k < |events| :: events[k].Reopen?
    ensures Shows(states[i], v)
    ensures forall k | 0 <= k < i :: !events[k].ok
  {
    if i > 0 {
      TornIntentBlocksEveryReopen(states, events, v, i - 1);
      assert Reconciled(states[i - 1], v, states[i], events[i - 1].ok);
    }
  }

  /** ... and such a crash is possible whenever a plan can be started. */
  lemma CrashInsideIntentIsTorn(d: Disk, p: PlanId, ids: seq<BackupId>, c: map<BackupId, Node>)
    requires CanBegin(d, p, ids, c)
    ensures Shows(PutJournal(d, IntentName(p), RegularFile(Partial)), Torn(p, c))
  {
    IntentOpens(d, PutJournal(d, IntentName(p), RegularFile(Partial)), p, ids, c);
  }

  /** A quarantined run whose identifier starts with "retention-" makes every reopening fail. */
  lemma {:induction false} RetentionNamedRunBlocksEveryReopen(
    states: seq<Disk>, events: seq<Event>, v: View, run: string, i: nat) returns (w: View)
    requires IsHistory(states, events) && Shows(states[0], v) && i <= |events|
    requires run in states[0].quarantine && IsIdentifier(run) && IsRetentionName(run)
    requires forall k | 0 <= k < |events| :: events[k].Reopen?
    ensures run in states[i].quarantine && Shows(states[i], w)
    ensures forall k | 0 <= k < i :: !events[k].ok
  {
    if i == 0 {
      w := v;
    } else {
      var u := RetentionNamedRunBlocksEveryReopen(states, events, v, run, i - 1);
      w := RunSurvivesReopen(states[i - 1], u, run, events[i - 1].ok, states[i]);
    }
  }

  lemma RunSurvivesReopen(d: Disk, w: View, run: string, ok: bool, e: Disk) returns (x: View)
    requires Shows(d, w) && Happens(d, Reopen(ok), e)
    requires run in d.quarantine && IsIdentifier(run) && IsRetentionName(run)
    ensures !ok && run in e.quarantine && Shows(e, x)
  {
    assert Reconciled(d, w, e, ok);
    if !w.Idle? {
      JournalNamesAreDistinct(w.plan);
      assert run !in JournalNames(w.plan);
      assert run in d.quarantine - JournalNames(w.plan);
      assert run in e.quarantine - JournalNames(w.plan);
    }
    x := EventFollows(d, w, Reopen(ok), e);
  }

  /** The effects of a run of plan `p` over `a` and `b` in which the second move fails and then
      walking the first one back fails too. */
  function AbandonedRun(d: Disk, p: PlanId, a: BackupId, b: BackupId): Disk
    requires a in d.backups
  {
    var d1 := PutAudit(d, ApprovedName(p), RegularFile(AuditDoc(Approved, p, d.repositoryId, [a, b])));
    var d2 := PutJournal(d1, IntentName(p), RegularFile(IntentDoc(1, p, d.repositoryId, [a, b])));
    MovedOut(SetTrash(d2, p, map[]), p, a)
  }

  /** The effects of a run of plan `q` over `b` alone, up to the move. */
  function MovingRun(d: Disk, q: PlanId, b: BackupId): Disk
    requires b in d.backups
  {
    var d1 := PutAudit(d, ApprovedName(q), RegularFile(AuditDoc(Approved, q, d.repositoryId, [b])));
    var d2 := PutJournal(d1, IntentName(q), RegularFile(IntentDoc(1, q, d.repositoryId, [b])));
    MovedOut(SetTrash(d2, q, map[]), q, b)
  }

  /** The effects of an undisturbed run of plan `q` over `b` alone. */
  function CompleteRun(d: Disk, q: PlanId, b: BackupId): Disk
    requires b in d.backups
  {
    Concluded(MovingRun(d, q, b), q, b)
  }

  /** The marker, the removal of `b`, the completion record and the end of the journal. */
  function Concluded(d: Disk, q: PlanId, b: BackupId): Disk {
    var d4 := PutJournal(d, MarkerName(q), RegularFile(Blank));
    var d5 := DropJournal(SetTrash(d4, q, TrashEntries(d4, q) - {b}), TrashName(q));
    var d6 := PutAudit(d5, CompletedName(q), RegularFile(AuditDoc(Completed, q, d.repositoryId, [b])));
    DropJournal(DropJournal(d6, MarkerName(q)), IntentName(q))
  }

  /** A stranded transaction blocks every later opening, and nothing changes any more. */
  lemma {:induction false} StrandedForever(states: seq<Disk>, events: seq<Event>, name: string, i: nat)
    requires IsHistory(states, events) && IsStrandedBy(states[0], name) && i <= |events|
    requires forall k | 0 <= k < |events| :: events[k].Reopen?
    ensures states[i] == states[0] && forall k | 0 <= k < i :: !events[k].ok
  {
    if i > 0 {
      StrandedForever(states, events, name, i - 1);
      assert Happens(states[i - 1], events[i - 1], states[i]);
    }
  }

  /** Beside the open transaction of `v`, the plan is current, confirmed and has not been started. */
  ghost predicate CanRunBeside(
    d: Disk, v: View, plan: RetentionPlan, confirmation: string,
    verify: (BackupId, Node) -> Option<string>, digest: PlanBody -> PlanId)
  {
    && Shows(d, v) && v.Pending? && plan.body.deleteIds != [] && ApprovedName(plan.planId) !in d.audit
    && IsCurrentPlan(d, plan, verify, digest) && confirmation == ConfirmationPhrase(plan)
  }

  /** Plan `q` over `ids` completed beside the open transaction of `v`. */
  ghost predicate RanBeside(d: Disk, v: View, q: PlanId, ids: seq<BackupId>, e: Disk) {
    Shows(d, v) && v.Pending? && v.plan != q && RanToCompletion(d, q, ids, e)
  }

  /** Unless some step fails, such a plan completes. */
  method ExecuteBeside(
    repository: Repository, plan: RetentionPlan, confirmation: string,
    verify: (BackupId, Node) -> Option<string>, digest: PlanBody -> PlanId, ghost v: View)
    returns (ok: bool)
    modifies repository`disk, repository`live, repository`faults
    ensures Noticed(old(repository.faults), repository.faults, ok)
    ensures (&& old(repository.live) && repository.faults == old(repository.faults)
             && CanRunBeside(old(repository.disk), v, plan, confirmation, verify, digest)) ==>
      && ok && repository.live
      && RanBeside(old(repository.disk), v, plan.planId, plan.body.deleteIds, repository.disk)
  {
    if CanRunBeside(repository.disk, v, plan, confirmation, verify, digest) {
      UnstartedBeside(repository.disk, v, plan.planId);
    }
    ok := RunExecute(repository, plan, confirmation, verify, digest);
  }

  /** The same repository object may go on to execute a second plan after an abandoned one.  With
      no further errors that plan succeeds, and the next opening then succeeds if and only if the
      two plans have no backup in common (and nothing else stands in its way). */
  method ExecuteBesideThenReopen(
    repository: Repository, plan: RetentionPlan, confirmation: string,
    verify: (BackupId, Node) -> Option<string>, digest: PlanBody -> PlanId, ghost v: View)
    returns (executed: bool, reopened: bool)
    modifies repository`disk, repository`live, repository`faults
    ensures (&& old(repository.live) && repository.faults == old(repository.faults)
             && CanRunBeside(old(repository.disk), v, plan, confirmation, verify, digest)) ==>
      executed && ReopensUnlessShared(old(repository.disk), v, plan.body.deleteIds, reopened, repository.disk)
  {
    ghost var d := repository.disk;
    executed := ExecuteBeside(repository, plan, confirmation, verify, digest, v);
    reopened := ReopenBeside(repository, d, v, plan.planId, plan.body.deleteIds);
  }

  method ReopenBeside(repository: Repository, ghost d: Disk, ghost v: View, ghost q: PlanId, ghost ids: seq<BackupId>)
    returns (ok: bool)
    modifies repository`disk, repository`live, repository`faults
    ensures Noticed(old(repository.faults), repository.faults, ok)
    ensures old(repository.live) && repository.faults == old(repository.faults) && RanBeside(d, v, q, ids, old(repository.disk)) ==>
      ReopensUnlessShared(d, v, ids, ok, repository.disk)
  {
    ghost var e, was := repository.disk, repository.live;
    ok := RunReopen(repository);
    if was && repository.faults == old(repository.faults) && RanBeside(d, v, q, ids, e) {
      ReopenedBeside(d, v, q, ids, e, ok, repository.disk);
    }
  }

  /** The opening succeeds, with the transaction of `v` undone and `ids` deleted, exactly when the
      two have nothing in common and no quarantined run is in the way; if they have, the
      transaction is stranded. */
  ghost predicate ReopensUnlessShared(d: Disk, v: View, ids: seq<BackupId>, ok: bool, f: Disk) {
    && (ok <==> !Shares(v, ids) && NoRetentionRun(d))
    && (ok ==> f.backups == Without(v.contents, ids))
    && (Shares(v, ids) ==> IsStrandedBy(f, IntentName(v.plan)))
  }

  /** What an undisturbed reopening makes of an open transaction beside which `q` completed. */
  lemma ReopenedBeside(d: Disk, v: View, q: PlanId, ids: seq<BackupId>, e: Disk, ok: bool, f: Disk)
    requires RanBeside(d, v, q, ids, e) && Happens(e, Reopen(ok), f)
    requires forall w | Shows(e, w) :: ok <==> !w.Torn? && NoRetentionRun(e)
    ensures ReopensUnlessShared(d, v, ids, ok, f)
  {
    SameRuns(d, q, e);
    if Shares(v, ids) {
      SharedStrands(d, v, q, ids, e);
    } else {
      UnsharedStays(d, v, q, ids, e);
      assert Reconciled(e, Pending(v.plan, v.ids, Without(v.contents, ids)), f, ok);
    }
  }

  lemma UnstartedBeside(d: Disk, v: View, q: PlanId)
    requires Shows(d, v) && ApprovedName(q) !in d.audit
    ensures Unstarted(d, q) && (v.Idle? || v.plan != q)
  {
    JournalNamesAreDistinct(q);
    if !v.Idle? {
      PlanNamesAreInjective(v.plan, q);
    }
  }

  lemma SameRuns(d: Disk, q: PlanId, e: Disk)
    requires TouchesOnly(d, e, q)
    ensures NoRetentionRun(d) <==> NoRetentionRun(e)
  {
    JournalNamesAreDistinct(q);
    forall n | IsIdentifier(n) ensures n in d.quarantine <==> n in e.quarantine {
      assert n in d.quarantine <==> n in d.quarantine - JournalNames(q);
      assert n in e.quarantine <==> n in e.quarantine - JournalNames(q);
    }
  }

  /** Such a pair of plans, from any idle repository with two backups: the first plan is abandoned
      with `a` moved, the second one deletes `b`, and no reopening succeeds again. */
  lemma SecondTransactionStrandsTheFirst(d: Disk, p: PlanId, q: PlanId, a: BackupId, b: BackupId, ok: bool, e: Disk)
    requires Shows(d, Idle(d.backups)) && p != q && a != b
    requires a in d.backups && b in d.backups && d.backups[a].Dir? && d.backups[b].Dir?
    requires ApprovedName(p) !in d.audit && ApprovedName(q) !in d.audit
    requires Happens(CompleteRun(AbandonedRun(d, p, a, b), q, b), Reopen(ok), e)
    ensures !ok && e == CompleteRun(AbandonedRun(d, p, a, b), q, b)
    ensures a !in e.backups && b !in e.backups && a in TrashEntries(e, p)
  {
    var d1 := AbandonedRun(d, p, a, b);
    AbandonedRunIsPending(d, p, a, b);
    PlanNamesAreInjective(p, q);
    CompleteRunCompletes(d1, q, b);
    assert b in [a, b] && b in [b];
    SharedStrands(d1, Pending(p, [a, b], d.backups), q, [b], CompleteRun(d1, q, b));
    OtherJournalUntouched(d1, Pending(p, [a, b], d.backups), q, CompleteRun(d1, q, b));
  }

  lemma AbandonedRunIsPending(d: Disk, p: PlanId, a: BackupId, b: BackupId)
    requires Shows(d, Idle(d.backups)) && a != b && ApprovedName(p) !in d.audit
    requires a in d.backups && b in d.backups && d.backups[a].Dir? && d.backups[b].Dir?
    ensures Shows(AbandonedRun(d, p, a, b), Pending(p, [a, b], d.backups))
    ensures AbandonedRun(d, p, a, b).backups == d.backups - {a}
    ensures TrashEntries(AbandonedRun(d, p, a, b), p) == map[a := d.backups[a]]
  {
    AbandonedRunShape(d, p, a, b);
    var e := AbandonedRun(d, p, a, b);
    var approved := PutAudit(d, ApprovedName(p), RegularFile(AuditDoc(Approved, p, d.repositoryId, [a, b])));
    ApprovalKeepsView(d, approved, p, d.backups);
    assert e.audit == approved.audit;
    JournalNamesAreDistinct(p);
    assert d.backups == e.backups + TrashEntries(e, p);
    OneOfTwoMoved(d, e, p, a, b);
  }

  lemma OneOfTwoMoved(d: Disk, e: Disk, p: PlanId, a: BackupId, b: BackupId)
    requires a != b && a in d.backups && b in d.backups && d.backups[a].Dir? && d.backups[b].Dir?
    requires e.backups == d.backups - {a} && TrashEntries(e, p) == map[a := d.backups[a]]
    ensures EachInOnePlace(e, p, [a, b]) && (forall id | id in TrashEntries(e, p) :: id in [a, b])
    ensures !HasDuplicateIds([a, b])
  {
  }

  lemma CompleteRunCompletes(d: Disk, q: PlanId, b: BackupId)
    requires b in d.backups && ApprovedName(q) !in d.audit
    ensures RanToCompletion(d, q, [b], CompleteRun(d, q, b))
  {
    CompleteRunShape(d, q, b);
    assert SetOf([b]) == {b} by {
      assert [b][0] == b;
    }
  }

  lemma AbandonedRunShape(d: Disk, p: PlanId, a: BackupId, b: BackupId)
    requires Shows(d, Idle(d.backups)) && a in d.backups && a != b && ApprovedName(p) !in d.audit
    ensures var e := AbandonedRun(d, p, a, b);
      && e.backups == d.backups - {a} && TrashEntries(e, p) == map[a := d.backups[a]]
      && IntentName(p) in e.quarantine
      && e.quarantine[IntentName(p)] == RegularFile(IntentDoc(1, p, d.repositoryId, [a, b]))
      && MarkerName(p) !in e.quarantine && CompletedName(p) !in e.audit
      && forall n | n in e.quarantine && IsRetentionName(n) && !IsIdentifier(n) :: n in JournalNames(p)
  {
    JournalNamesAreDistinct(p);
    assert |ApprovedName(p)| == 88 && |CompletedName(p)| == 89;
  }

  lemma CompleteRunShape(d: Disk, q: PlanId, b: BackupId)
    requires b in d.backups
    ensures var e := CompleteRun(d, q, b);
      && e.backups == d.backups - {b} && JournalNames(q) !! e.quarantine.Keys
      && e.quarantine - JournalNames(q) == d.quarantine - JournalNames(q)
      && e.audit == Recorded(d, Recorded(d, d.audit, Approved, q, [b]), Completed, q, [b])
  {
    MovingRunShape(d, q, b);
    JournalNamesAreDistinct(q);
    ConcludedShape(MovingRun(d, q, b), q, b);
  }

  lemma ConcludedShape(d: Disk, q: PlanId, b: BackupId)
    ensures var e := Concluded(d, q, b);
      && e.backups == d.backups && e.quarantine == d.quarantine - JournalNames(q) && e.repositoryId == d.repositoryId
      && e.audit == Recorded(d, d.audit, Completed, q, [b])
  {
    JournalNamesAreDistinct(q);
  }

  lemma MovingRunShape(d: Disk, q: PlanId, b: BackupId)
    requires b in d.backups
    ensures var e := MovingRun(d, q, b);
      && e.backups == d.backups - {b} && e.quarantine.Keys == d.quarantine.Keys + {IntentName(q), TrashName(q)}
      && e.quarantine - JournalNames(q) == d.quarantine - JournalNames(q)
      && e.audit == Recorded(d, d.audit, Approved, q, [b]) && e.repositoryId == d.repositoryId
  {
    JournalNamesAreDistinct(q);
  }
}
