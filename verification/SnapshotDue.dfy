/** When a collection and when a purge are due. */
module SnapshotDue {
  import opened Common
  import opened SnapshotTables
  import opened SnapshotCapture
  import opened SnapshotStore

  /** A finished run that counts for the interval of its collector: a Wait run
    * whether or not it succeeded, any other run only if it did. */
  predicate Counts(db: Db, collector: Collector, r: RunId) {
    && r in db.runs && db.runs[r].collector == collector && db.runs[r].ended.Some?
    && (collector == WaitStats || db.runs[r].status == Available || db.runs[r].status == PartialResult)
  }

  ghost predicate NewestCounted(db: Db, collector: Collector, r: RunId) {
    Counts(db, collector, r) && forall later | later in db.runs && Counts(db, collector, later) :: later <= r
  }

  lemma NewestIsLast(db: Db, collector: Collector)
    ensures match LastCompleted(db, collector)
      case None => forall r :: !NewestCounted(db, collector, r)
      case Some(end) => exists r :: NewestCounted(db, collector, r) && db.runs[r].ended == Some(end)
  {
    var ids := CompletedRuns(db, collector);
    assert forall r | r in db.runs && Counts(db, collector, r) :: r in ids;
    if ids != {} {
      assert NewestCounted(db, collector, Greatest(ids));
    }
  }

  /** The newest counted run ended less than the interval ago. */
  ghost predicate TooSoon(db: Db, collector: Collector, intervalSeconds: int, now: int) {
    exists r :: NewestCounted(db, collector, r) && db.runs[r].ended.value + intervalSeconds * 1000 > now
  }

  /** Each answer of a preparation has its cause, examined in this order: the
    * collector is off; the data budget is exceeded; it is too soon, unless forced. */
  lemma PreparedExactly(db: Db, collector: Collector, policy: Policy, softBudget: int, used: int, now: int, force: bool)
    ensures var status := PrepareStatusFor(db, collector, policy, softBudget, used, now, force);
      var soon := TooSoon(db, collector, policy.intervalSeconds, now);
      && (status == PrepareDisabled <==> !policy.enabled)
      && (status == PrepareStoppedSizeBudget <==> policy.enabled && used > softBudget)
      && (status == PrepareSkippedNotDue <==> policy.enabled && used <= softBudget && !force && soon)
      && (status == PrepareAvailable <==> policy.enabled && used <= softBudget && (force || !soon))
  {
    NewestIsLast(db, collector);
    assert forall r, s | NewestCounted(db, collector, r) && NewestCounted(db, collector, s) :: r == s;
  }

  /** The row a preparation opens: running, or closed at once with the reason, which
    * the module row repeats. */
  lemma PreparedRow(db: Db, collector: Collector, now: int, answer: PrepareStatus)
    ensures var after := Prepared(db, collector, now, answer);
      && after.runs.Keys == db.runs.Keys + {db.nextRun} && after.nextRun == db.nextRun + 1
      && (forall r | r in db.runs && r != db.nextRun :: after.runs[r] == db.runs[r])
      && var row := after.runs[db.nextRun];
         && row == Run(collector, now, row.ended, row.status, None, None, 0, 0)
         && row.ended == (if answer == PrepareAvailable then None else Some(now))
         && (row.status == Running <==> answer == PrepareAvailable)
         && (row.status == Disabled <==> answer == PrepareDisabled)
         && (row.status == StoppedSizeBudget <==> answer == PrepareStoppedSizeBudget)
         && (row.status == SkippedNotDue <==> answer == PrepareSkippedNotDue)
         && after.modules == (if answer == PrepareAvailable then db.modules
                              else db.modules[ModuleKey(db.nextRun, PERFORMANCE_COUNTERS_MODULE) := row.status])
  {
    assert Prepared(db, collector, now, answer).runs.Keys == db.runs.Keys + {db.nextRun};
  }

  /** A finished purge run that succeeded, limited or not. */
  predicate Succeeded(entry: PurgeRun) {
    (entry.status == PurgeAvailable || entry.status == PurgeAvailableLimited) && entry.ended.Some?
  }

  ghost predicate NewestSuccess(history: seq<PurgeRun>, i: nat) {
    i < |history| && Succeeded(history[i]) && forall j | i < j < |history| :: !Succeeded(history[j])
  }

  /** A purge is due unless the newest successful one ended less than the interval ago. */
  lemma {:induction false} PurgeDueExactly(history: seq<PurgeRun>, intervalMinutes: nat, now: int)
    ensures PurgeDue(history, intervalMinutes, now) ==
      forall i: nat | NewestSuccess(history, i) :: history[i].ended.value + intervalMinutes * 60000 <= now
  {
    if history != [] {
      var n, before := |history| - 1, history[..|history| - 1];
      PurgeDueExactly(before, intervalMinutes, now);
      if Succeeded(history[n]) {
        assert NewestSuccess(history, n);
      } else {
        assert forall i: nat :: NewestSuccess(before, i) == NewestSuccess(history, i);
      }
    }
  }
}
