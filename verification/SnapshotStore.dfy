/** The snapshot database as an object whose procedures update its tables. */
module SnapshotStore {
  import opened Common
  import opened SnapshotTables
  import opened SnapshotCapture
  import opened SnapshotPurge
  import opened SnapshotRetention

  datatype PurgeStatus =
    | PurgeInvalidParameter | PurgeSkippedNotDue | PurgeRunning
    | PurgeAvailable | PurgeAvailableLimited | PurgeErrorHandled

  datatype RetentionPolicy = RetentionPolicy(
    rawDays: nat, payloadDays: nat, intervalMinutes: nat, batchRows: nat, softBudget: int)

  datatype PurgeRun = PurgeRun(
    started: int, ended: Option<int>, status: PurgeStatus, batches: nat, deleted: seq<nat>)

  /** The transaction of a batch fails before statement `statement`;
    * statement 5 is the commit. */
  datatype Fault = NoFault | FaultAt(batch: nat, statement: nat) {
    predicate Strikes(k: nat) {
      FaultAt? && batch == k && statement <= STATEMENTS
    }

    predicate StruckBefore(k: nat) {
      FaultAt? && batch < k && statement <= STATEMENTS
    }
  }

  datatype PrepareStatus =
    | PrepareAvailable | PrepareDisabled | PrepareStoppedSizeBudget | PrepareSkippedNotDue

  /** DELETE TOP: any min(n, |matching|) of the matching rows. */
  method DeleteTop<T(==)>(n: nat, matching: set<T>) returns (victims: set<T>)
    ensures victims <= matching && |victims| == Min(n, |matching|)
  {
    victims := {};
    var rest := matching;
    while |victims| < n && rest != {}
      invariant victims + rest == matching && victims !! rest
      invariant |victims| <= n
      decreases rest
    {
      var x :| x in rest;
      victims, rest := victims + {x}, rest - {x};
    }
    assert |victims + rest| == |victims| + |rest|;
  }

  class Store {
    var runs: map<RunId, Run>
    var samples: map<SampleKey, Sample>
    var payloads: map<nat, Payload>
    var modules: map<ModuleKey, RunStatus>
    var scopes: set<Scope>
    var nextRun: RunId
    var nextPayload: nat
    var purgeRuns: seq<PurgeRun>

    function Tables(): Db
      reads this
    {
      Db(runs, samples, payloads, modules, scopes, nextRun, nextPayload)
    }

    constructor ()
      ensures Tables() == Db(map[], map[], map[], map[], {}, 1, 0) && purgeRuns == []
    {
      runs, samples, payloads, modules, scopes := map[], map[], map[], map[], {};
      nextRun, nextPayload, purgeRuns := 1, 0, [];
    }

    /** Opens one run, or for Wait collection refuses without writing. */
    method PrepareCollectionCycle(collector: Collector, policy: Policy, softBudget: int, used: int,
                                  now: int, runEvenIfNotDue: bool)
      returns (id: Option<RunId>, shouldCollect: bool, status: PrepareStatus)
      requires Consistent(Tables())
      modifies this
      ensures purgeRuns == old(purgeRuns)
      ensures status == PrepareStatusFor(old(Tables()), collector, policy, softBudget, used, now, runEvenIfNotDue)
      ensures shouldCollect <==> status == PrepareAvailable
      ensures id.None? <==> collector == WaitStats && status != PrepareAvailable
      ensures id.None? ==> Tables() == old(Tables())
      ensures id.Some? ==> id.value == old(nextRun) && Tables() == Prepared(old(Tables()), collector, now, status)
    {
      status := PrepareStatusFor(Tables(), collector, policy, softBudget, used, now, runEvenIfNotDue);
      shouldCollect := status == PrepareAvailable;
      if collector == WaitStats && !shouldCollect {
        return None, false, status;
      }
      id := Some(nextRun);
      var ended := if shouldCollect then None else Some(now);
      runs := runs[nextRun := Run(collector, now, ended, PreparedStatus(status), None, None, 0, 0)];
      if !shouldCollect {
        modules := modules[ModuleKey(nextRun, PERFORMANCE_COUNTERS_MODULE) := PreparedStatus(status)];
      }
      nextRun := nextRun + 1;
    }

    /** Finalizes one Wait run: a full capture, a failed source, or a closed error.
      * A failing transaction is rolled back before its run is closed. */
    method CompleteWaitStatsCycle(r: RunId, policy: Policy, s: Source, newId: Epoch, clock: Clock, f: Failure)
      returns (outcome: Outcome)
      modifies this
      ensures purgeRuns == old(purgeRuns)
      ensures (Tables(), outcome) == Complete(old(Tables()), r, policy, s, newId, clock, f)
    {
      if f.stage == Some(BeforeOwnRun) {
        return Refused(f.error);
      }
      if !OwnOpenRun(Tables(), r) {
        return NotOwnRun;
      }
      var started := runs[r].started;
      if f.stage == Some(BeforeChecks) {
        outcome := CloseOwnRun(r, f.error, clock.closing, f.closingFails);
      } else if !PolicyOk(policy) || !SourceOk(s, started, clock.checked) {
        outcome := CloseOwnRun(r, CONTRACT_ERROR, clock.closing, f.closingFails);
      } else if !s.complete {
        outcome := FinishFailedSource(r, policy.payloadEnabled, s, clock, f);
      } else {
        var c := Analyse(Tables(), r, started, policy, s, newId, clock);
        outcome := FinishCapture(c, policy.payloadEnabled, clock, f);
      }
    }

    method FinishFailedSource(r: RunId, payloadEnabled: bool, s: Source, clock: Clock, f: Failure)
      returns (outcome: Outcome)
      requires r in runs
      modifies this
      ensures purgeRuns == old(purgeRuns)
      ensures (Tables(), outcome) == CompleteWithoutMetrics(old(Tables()), r, payloadEnabled, s, clock, f)
    {
      if clock.finished < runs[r].started {
        outcome := CloseOwnRun(r, CHECK_VIOLATION, clock.closing, f.closingFails);
        return;
      }
      var saved := Tables();
      StoreFailure(r, s, payloadEnabled, clock.finished);
      outcome := WithoutMetrics;
      if f.stage.Some? {
        RollBack(saved);
        outcome := CloseOwnRun(r, f.error, clock.closing, f.closingFails);
      }
    }

    method FinishCapture(c: Capture, payloadEnabled: bool, clock: Clock, f: Failure) returns (outcome: Outcome)
      requires c.run in runs && c.base.Keys <= c.rows.Keys
      modifies this
      ensures purgeRuns == old(purgeRuns)
      ensures (Tables(), outcome) == CompleteCapture(old(Tables()), c, payloadEnabled, clock, f)
    {
      if !EpochOk(Tables(), c) || clock.finished < c.end || clock.finished < runs[c.run].started {
        outcome := CloseOwnRun(c.run, INTERNAL_ERROR, clock.closing, f.closingFails);
        return;
      }
      var saved := Tables();
      StoreCapture(c, payloadEnabled);
      outcome := Captured(c);
      if f.stage.Some? {
        RollBack(saved);
        outcome := CloseOwnRun(c.run, f.error, clock.closing, f.closingFails);
      }
    }

    method RollBack(saved: Db)
      modifies this
      ensures purgeRuns == old(purgeRuns) && Tables() == saved
    {
      runs, samples, payloads := saved.runs, saved.samples, saved.payloads;
      modules, scopes, nextRun, nextPayload := saved.modules, saved.scopes, saved.nextRun, saved.nextPayload;
    }

    method StoreCapture(c: Capture, payloadEnabled: bool)
      requires c.base.Keys <= c.rows.Keys
      modifies this
      ensures purgeRuns == old(purgeRuns)
      ensures Tables() == Insert(old(Tables()), c, payloadEnabled)
    {
      StorePayload(c.run, c.end, payloadEnabled);
      scopes, samples := scopes + ScopesOf(c), samples + SamplesOf(c);
      modules := modules[ModuleKey(c.run, WaitSource) := Available][ModuleKey(c.run, WaitCompletion) := PartialResult];
      runs := runs[c.run := RunOf(c, if payloadEnabled then 1 else 0)];
    }

    method StoreFailure(r: RunId, s: Source, payloadEnabled: bool, at: int)
      requires r in runs
      modifies this
      ensures purgeRuns == old(purgeRuns)
      ensures Tables() == FinishWithoutMetrics(old(Tables()), r, s, payloadEnabled, at)
    {
      StorePayload(r, at, payloadEnabled);
      modules := modules[ModuleKey(r, WaitSource) := SourceFailure(s.status)];
      runs := runs[r := runs[r].(ended := Some(at), status := SourceFailure(s.status), error := s.error, epoch := None,
                                 sampleCount := 0, payloadCount := if payloadEnabled then 1 else 0)];
    }

    method StorePayload(r: RunId, at: int, enabled: bool)
      modifies this
      ensures purgeRuns == old(purgeRuns)
      ensures Tables() == AddPayload(old(Tables()), r, at, enabled)
    {
      if enabled {
        payloads, nextPayload := payloads[nextPayload := Payload(r, at)], nextPayload + 1;
      }
    }

    method CloseOwnRun(r: RunId, error: int, at: int, fails: bool) returns (outcome: Outcome)
      requires r in runs
      modifies this
      ensures purgeRuns == old(purgeRuns)
      ensures (Tables(), outcome) == CloseFailed(old(Tables()), r, error, at, fails)
    {
      if fails || at < runs[r].started {
        return Unconfirmed(error);
      }
      modules := modules[ModuleKey(r, WaitCompletion) := FailureStatus(error)];
      runs := runs[r := runs[r].(ended := Some(at), status := FailureStatus(error), error := Some(error))];
      return Closed(error);
    }

    method DeleteSamples(n: nat, rawCut: int, payloadCut: int) returns (rows: nat)
      requires Consistent(Tables())
      modifies this
      ensures purgeRuns == old(purgeRuns)
      ensures StatementDone(old(Tables()), Tables(), 0, n, rows, rawCut, payloadCut)
    {
      var victims := DeleteTop(n, ExpiredSamples(Tables(), rawCut));
      SamplesPurge(Tables(), victims, n, rawCut, payloadCut);
      samples, rows := samples - victims, |victims|;
    }

    method DeletePayloads(n: nat, rawCut: int, payloadCut: int) returns (rows: nat)
      requires Consistent(Tables())
      modifies this
      ensures purgeRuns == old(purgeRuns)
      ensures StatementDone(old(Tables()), Tables(), 1, n, rows, rawCut, payloadCut)
    {
      var victims := DeleteTop(n, ExpiredPayloads(Tables(), payloadCut));
      PayloadsPurge(Tables(), victims, n, rawCut, payloadCut);
      payloads, rows := payloads - victims, |victims|;
    }

    method DeleteModules(n: nat, rawCut: int, payloadCut: int) returns (rows: nat)
      requires Consistent(Tables())
      modifies this
      ensures purgeRuns == old(purgeRuns)
      ensures StatementDone(old(Tables()), Tables(), 2, n, rows, rawCut, payloadCut)
    {
      var victims := DeleteTop(n, DeletableModules(Tables(), rawCut));
      ModulesPurge(Tables(), victims, n, rawCut, payloadCut);
      modules, rows := modules - victims, |victims|;
    }

    method DeleteRuns(n: nat, rawCut: int, payloadCut: int) returns (rows: nat)
      requires Consistent(Tables())
      modifies this
      ensures purgeRuns == old(purgeRuns)
      ensures StatementDone(old(Tables()), Tables(), 3, n, rows, rawCut, payloadCut)
    {
      var victims := DeleteTop(n, DeletableRuns(Tables(), rawCut));
      RunsPurge(Tables(), victims, n, rawCut, payloadCut);
      runs, rows := runs - victims, |victims|;
    }

    method DeleteScopes(n: nat, rawCut: int, payloadCut: int) returns (rows: nat)
      requires Consistent(Tables())
      modifies this
      ensures purgeRuns == old(purgeRuns)
      ensures StatementDone(old(Tables()), Tables(), 4, n, rows, rawCut, payloadCut)
    {
      var victims := DeleteTop(n, DeletableScopes(Tables()));
      ScopesPurge(Tables(), victims, n, rawCut, payloadCut);
      scopes, rows := scopes - victims, |victims|;
    }

    /** The i-th delete statement of a purge batch. */
    method DeleteStatement(i: nat, n: nat, rawCut: int, payloadCut: int) returns (rows: nat)
      requires i < STATEMENTS && Consistent(Tables())
      modifies this
      ensures purgeRuns == old(purgeRuns)
      ensures StatementDone(old(Tables()), Tables(), i, n, rows, rawCut, payloadCut)
    {
      if i == 0 { rows := DeleteSamples(n, rawCut, payloadCut); }
      else if i == 1 { rows := DeletePayloads(n, rawCut, payloadCut); }
      else if i == 2 { rows := DeleteModules(n, rawCut, payloadCut); }
      else if i == 3 { rows := DeleteRuns(n, rawCut, payloadCut); }
      else { rows := DeleteScopes(n, rawCut, payloadCut); }
    }

    /** The delete statements of a batch that run before the `stop`-th. */
    method RunStatements(n: nat, rawCut: int, payloadCut: int, stop: nat) returns (deleted: seq<nat>)
      requires Consistent(Tables()) && stop <= STATEMENTS
      modifies this
      ensures purgeRuns == old(purgeRuns) && |deleted| == STATEMENTS
      ensures BatchDone(old(Tables()), Tables(), stop, n, deleted, rawCut, payloadCut)
    {
      ghost var saved := Tables();
      BatchStart(saved, n, rawCut, payloadCut);
      deleted := NO_ROWS;
      for i := 0 to stop
        invariant |deleted| == STATEMENTS && purgeRuns == old(purgeRuns)
        invariant BatchDone(saved, Tables(), i, n, deleted, rawCut, payloadCut)
      {
        ghost var before := Tables();
        var rows := DeleteStatement(i, n, rawCut, payloadCut);
        BatchStep(saved, before, Tables(), i, n, rows, deleted, rawCut, payloadCut);
        deleted := deleted[i := deleted[i] + rows];
      }
    }

    /** One transaction: five delete statements, or everything rolled back.
      * `partial` is the state just before the commit or the rollback. */
    method RunBatch(n: nat, rawCut: int, payloadCut: int, failAt: Option<nat>)
      returns (ok: bool, deleted: seq<nat>, ghost partial: Db)
      requires Consistent(Tables())
      modifies this
      ensures purgeRuns == old(purgeRuns) && |deleted| == STATEMENTS
      ensures ok <==> failAt.None? || failAt.value > STATEMENTS
      ensures BatchDone(old(Tables()), partial, if ok then STATEMENTS else failAt.value, n, deleted, rawCut, payloadCut)
      ensures Tables() == if ok then partial else old(Tables())
    {
      var saved := Tables();
      ok := failAt.None? || failAt.value > STATEMENTS;
      deleted := RunStatements(n, rawCut, payloadCut, if ok then STATEMENTS else failAt.value);
      partial := Tables();
      if !ok {
        RollBack(saved);
      }
    }

    /** Batches until one deletes nothing, the allowance is used, or one fails. */
    method RunBatches(maxBatches: nat, n: nat, rawCut: int, payloadCut: int, fault: Fault)
      returns (ok: bool, batch: nat, last: nat, total: seq<nat>, ghost partial: Db)
      requires Consistent(Tables()) && maxBatches > 0
      modifies this
      ensures purgeRuns == old(purgeRuns)
      ensures BatchesDone(old(Tables()), Tables(), maxBatches, n, rawCut, payloadCut, fault,
                          ok, batch, last, total, partial)
    {
      ghost var start := Tables();
      partial := start;
      PurgeStart(start, rawCut, payloadCut);
      batch, total, last, ok := 0, NO_ROWS, 1, true;
      while batch < maxBatches && last > 0
        invariant purgeRuns == old(purgeRuns) && 0 <= batch <= maxBatches && |total| == STATEMENTS && ok
        invariant partial == Tables()
        invariant BatchesGoOn(start, partial, n, rawCut, payloadCut, fault, batch, last, total)
        decreases maxBatches - batch
      {
        ghost var before := partial;
        var deleted;
        ok, deleted, partial := RunBatch(n, rawCut, payloadCut,
                                         if fault.Strikes(batch) then Some(fault.statement) else None);
        if !ok {
          FailedBatch(start, before, partial, maxBatches, batch, last, total, fault, n, deleted, rawCut, payloadCut);
          total := Plus(total, deleted);
          return;
        }
        NextBatch(start, before, partial, n, rawCut, payloadCut, fault, batch, last, total, deleted);
        total, last, batch := Plus(total, deleted), Sum(deleted), batch + 1;
      }
      LastBatch(start, partial, maxBatches, n, rawCut, payloadCut, fault, batch, last, total);
    }

    /** Runs the batches and records them.
      *
      * `partial` is the state before the rollback of a failed batch: the
      * recorded counters describe it, not the restored state, and are true of
      * the run exactly if it did not fail or the failed batch had deleted nothing. */
    method RecordPurge(maxBatches: nat, n: nat, rawCut: int, payloadCut: int, now: int, finished: int, fault: Fault)
      returns (entry: PurgeRun, ghost partial: Db)
      requires Consistent(Tables()) && maxBatches > 0
      modifies this
      ensures purgeRuns == old(purgeRuns) + [entry] && entry.started == now && entry.ended == Some(finished)
      ensures PurgeReported(old(Tables()), Tables(), entry, n, maxBatches, fault, partial, rawCut, payloadCut)
      ensures CountersTrue(old(Tables()), Tables(), entry) <==>
              entry.status != PurgeErrorHandled || IdleBefore(Tables(), fault, n, rawCut, payloadCut)
      ensures OnlyExpiredGone(old(Tables()), Tables(), rawCut, payloadCut)
      ensures entry.status != PurgeAvailable || n == 0 || NothingExpiredLeft(Tables(), rawCut, payloadCut)
    {
      var history := purgeRuns;
      purgeRuns := history + [PurgeRun(now, None, PurgeRunning, 0, NO_ROWS)];
      var ok, batch, last, total;
      ok, batch, last, total, partial := RunBatches(maxBatches, n, rawCut, payloadCut, fault);
      entry := PurgeRun(now, Some(finished), BatchStatus(ok, batch, last, maxBatches), batch, total);
      ReportFollows(old(Tables()), Tables(), maxBatches, n, rawCut, payloadCut, fault, ok, batch, last, entry, partial);
      CountersExactly(old(Tables()), Tables(), entry, n, maxBatches, fault, partial, rawCut, payloadCut);
      ReportedRetention(old(Tables()), Tables(), entry, n, maxBatches, fault, partial, rawCut, payloadCut);
      ghost var after := Tables();
      purgeRuns := history + [entry];
      assert Tables() == after;
    }

    /** Deletes expired rows in bounded batches, if a purge is due.  `rawCut` and
      * `payloadCut` are the times before which samples and payloads are expired. */
    method PurgeExpiredData(maxBatches: int, force: bool, policy: RetentionPolicy, now: int, finished: int,
                            usedBefore: int, usedAfter: int, fault: Fault)
      returns (status: PurgeStatus, budgetExceeded: bool, entry: Option<PurgeRun>, ghost partial: Db,
               ghost rawCut: int, ghost payloadCut: int)
      requires Consistent(Tables())
      modifies this
      ensures rawCut == now - policy.rawDays * 86400000 && payloadCut == now - policy.payloadDays * 86400000
      ensures status == PurgeInvalidParameter <==> !(1 <= maxBatches <= 1000)
      ensures status == PurgeSkippedNotDue <==> 1 <= maxBatches <= 1000 && !force && usedBefore <= policy.softBudget
                                                && !PurgeDue(old(purgeRuns), policy.intervalMinutes, now)
      ensures entry.None? <==> status in {PurgeInvalidParameter, PurgeSkippedNotDue}
      ensures entry.None? ==> Tables() == old(Tables()) && purgeRuns == old(purgeRuns) && !budgetExceeded
      ensures entry.Some? ==>
                && purgeRuns == old(purgeRuns) + [entry.value]
                && entry.value.status == status && entry.value.ended == Some(finished)
                && (budgetExceeded <==> status == PurgeErrorHandled || usedAfter > policy.softBudget)
      ensures entry.Some? ==>
                PurgeReported(old(Tables()), Tables(), entry.value, policy.batchRows, maxBatches, fault, partial,
                              rawCut, payloadCut)
      ensures entry.Some? ==> OnlyExpiredGone(old(Tables()), Tables(), rawCut, payloadCut)
      ensures status == PurgeAvailable && policy.batchRows > 0 ==> NothingExpiredLeft(Tables(), rawCut, payloadCut)
      ensures entry.Some? ==>
                (CountersTrue(old(Tables()), Tables(), entry.value) <==>
                 status != PurgeErrorHandled || IdleBefore(Tables(), fault, policy.batchRows, rawCut, payloadCut))
    {
      status, budgetExceeded, entry, partial := PurgeInvalidParameter, false, None, Tables();
      var rawFrom, payloadFrom := now - policy.rawDays * 86400000, now - policy.payloadDays * 86400000;
      rawCut, payloadCut := rawFrom, payloadFrom;
      if !(1 <= maxBatches <= 1000) {
        return;
      }
      if !force && usedBefore <= policy.softBudget && !PurgeDue(purgeRuns, policy.intervalMinutes, now) {
        status := PurgeSkippedNotDue;
        return;
      }
      var recorded;
      recorded, partial := RecordPurge(maxBatches, policy.batchRows, rawFrom, payloadFrom, now, finished, fault);
      status, entry := recorded.status, Some(recorded);
      budgetExceeded := status == PurgeErrorHandled || usedAfter > policy.softBudget;
    }
  }

  const PERFORMANCE_COUNTERS_MODULE := OtherModule(0)

  /** End of the newest finished run of the collector; for performance counters
    * only successful runs count. */
  function LastCompleted(db: Db, collector: Collector): Option<int> {
    var ids := CompletedRuns(db, collector);
    if ids == {} then None else db.runs[Greatest(ids)].ended
  }

  function CompletedRuns(db: Db, collector: Collector): set<RunId> {
    set r | r in db.runs && db.runs[r].collector == collector && db.runs[r].ended.Some?
            && (collector == WaitStats || db.runs[r].status in {Available, PartialResult})
  }

  function PrepareStatusFor(db: Db, collector: Collector, policy: Policy, softBudget: int, used: int,
                            now: int, runEvenIfNotDue: bool): PrepareStatus {
    var last := LastCompleted(db, collector);
    if !policy.enabled then PrepareDisabled
    else if used > softBudget then PrepareStoppedSizeBudget
    else if !runEvenIfNotDue && last.Some? && last.value + policy.intervalSeconds * 1000 > now then PrepareSkippedNotDue
    else PrepareAvailable
  }

  function PreparedStatus(status: PrepareStatus): RunStatus {
    match status
    case PrepareAvailable => Running
    case PrepareDisabled => Disabled
    case PrepareStoppedSizeBudget => StoppedSizeBudget
    case PrepareSkippedNotDue => SkippedNotDue
  }

  function Prepared(db: Db, collector: Collector, now: int, status: PrepareStatus): Db {
    var collect := status == PrepareAvailable;
    db.(runs := db.runs[db.nextRun := Run(collector, now, if collect then None else Some(now),
                                          PreparedStatus(status), None, None, 0, 0)],
        modules := if collect then db.modules
                   else db.modules[ModuleKey(db.nextRun, PERFORMANCE_COUNTERS_MODULE) := PreparedStatus(status)],
        nextRun := db.nextRun + 1)
  }

  lemma LastWaitIsFence(db: Db)
    ensures match LastCompleted(db, WaitStats)
      case None => forall r | r in db.runs :: !FinalizedWait(db, r)
      case Some(end) => exists r :: Fence(db, r) && db.runs[r].ended == Some(end)
  {
    var ids := CompletedRuns(db, WaitStats);
    assert forall r | r in db.runs && FinalizedWait(db, r) :: r in ids;
    if ids != {} {
      assert Fence(db, Greatest(ids));
    }
  }

  /** A wait run is opened exactly if the collector is enabled, the data budget is
    * kept and, unless forced, the interval has passed since the newest finalized
    * wait run ended, whether that run succeeded or failed. */
  lemma WaitRunOpensExactly(db: Db, policy: Policy, softBudget: int, used: int, now: int, force: bool)
    ensures PrepareStatusFor(db, WaitStats, policy, softBudget, used, now, force) == PrepareAvailable <==>
      && policy.enabled && used <= softBudget
      && (force || forall r | Fence(db, r) :: db.runs[r].ended.value + policy.intervalSeconds * 1000 <= now)
  {
    LastWaitIsFence(db);
    assert forall r, s | Fence(db, r) && Fence(db, s) :: r == s;
  }

  /** No purge changes when the next wait run is due. */
  lemma PurgeKeepsDue(a: Db, b: Db, rawCut: int, payloadCut: int, policy: Policy, softBudget: int, used: int,
                      now: int, force: bool)
    requires PurgeEffect(a, b, rawCut, payloadCut)
    ensures PrepareStatusFor(a, WaitStats, policy, softBudget, used, now, force)
         == PrepareStatusFor(b, WaitStats, policy, softBudget, used, now, force)
  {
    LastWaitIsFence(a);
    LastWaitIsFence(b);
    assert forall r | Fence(a, r) :: Fence(b, r) && a.runs[r] == b.runs[r];
    assert forall r, s | Fence(b, r) && Fence(b, s) :: r == s;
  }

  /** A prepared Wait run is one the completion accepts as its own. */
  lemma PreparedRunIsOwn(db: Db, now: int)
    requires Consistent(db)
    ensures var after := Prepared(db, WaitStats, now, PrepareAvailable);
      Consistent(after) && OwnOpenRun(after, db.nextRun)
  {
    var after := Prepared(db, WaitStats, now, PrepareAvailable);
    assert forall k | k in db.samples :: k.run != db.nextRun;
    assert forall p | p in db.payloads :: db.payloads[p].run != db.nextRun;
    assert forall k | k in db.modules :: k.run != db.nextRun;
  }

  /** The result of the batch loop. */
  ghost predicate BatchesDone(a: Db, b: Db, maxBatches: int, n: nat, rawCut: int, payloadCut: int, fault: Fault,
                              ok: bool, batch: nat, last: nat, total: seq<nat>, partial: Db) {
    && batch <= maxBatches && |total| == STATEMENTS
    && PurgeEffect(a, b, rawCut, payloadCut)
    && (forall j | 0 <= j < STATEMENTS :: total[j] == Rows(a, j) - Rows(partial, j))
    && !fault.StruckBefore(batch)
    && if ok then
         && 0 < batch && (batch == maxBatches || last == 0)
         && partial == b && PurgeDone(a, b, batch, last, total, rawCut, payloadCut)
         && (last == 0 && n > 0 ==> Fixpoint(b, rawCut, payloadCut))
       else
         && fault.Strikes(batch) && (batch == 0 ==> a == b)
         && PurgeEffect(b, partial, rawCut, payloadCut) && TotalRows(b) + batch <= TotalRows(a)
         && (SameRows(b, partial) <==> IdleBefore(b, fault, n, rawCut, payloadCut))
  }

  /** No statement before the failing one has a row to delete. */
  ghost predicate IdleBefore(db: Db, fault: Fault, n: nat, rawCut: int, payloadCut: int) {
    fault.FaultAt? && fault.statement <= STATEMENTS ==> Idle(db, fault.statement, n, rawCut, payloadCut)
  }

  lemma PlusRows(a: Db, b: Db, c: Db, total: seq<nat>, deleted: seq<nat>)
    requires |total| == STATEMENTS && |deleted| == STATEMENTS
    requires forall j | 0 <= j < STATEMENTS :: total[j] == Rows(a, j) - Rows(b, j)
    requires forall j | 0 <= j < STATEMENTS :: deleted[j] == Rows(b, j) - Rows(c, j)
    ensures forall j | 0 <= j < STATEMENTS :: Plus(total, deleted)[j] == Rows(a, j) - Rows(c, j)
  {
    forall j | 0 <= j < STATEMENTS ensures Plus(total, deleted)[j] == Rows(a, j) - Rows(c, j) {
      assert total[j] == Rows(a, j) - Rows(b, j) && deleted[j] == Rows(b, j) - Rows(c, j);
    }
  }

  /** A failed batch ends the loop with the tables it began with. */
  lemma FailedBatch(a: Db, b: Db, partial: Db, maxBatches: int, batch: nat, last: nat, total: seq<nat>, fault: Fault,
                    n: nat, deleted: seq<nat>, rawCut: int, payloadCut: int)
    requires |total| == STATEMENTS && |deleted| == STATEMENTS && batch <= maxBatches
    requires fault.Strikes(batch) && PurgeDone(a, b, batch, last, total, rawCut, payloadCut) && last > 0
    requires BatchDone(b, partial, fault.statement, n, deleted, rawCut, payloadCut)
    ensures BatchesDone(a, b, maxBatches, n, rawCut, payloadCut, fault, false, batch, last, Plus(total, deleted),
                        partial)
  {
    SameRowsIffIdle(b, partial, fault.statement, n, deleted, rawCut, payloadCut);
    PlusRows(a, b, partial, total, deleted);
  }

  /** After `batch` committed batches, of which the last deleted `last` rows. */
  ghost predicate BatchesGoOn(a: Db, b: Db, n: nat, rawCut: int, payloadCut: int, fault: Fault, batch: nat, last: nat,
                              total: seq<nat>) {
    && |total| == STATEMENTS && PurgeDone(a, b, batch, last, total, rawCut, payloadCut)
    && (last == 0 && n > 0 ==> Fixpoint(b, rawCut, payloadCut))
    && !fault.StruckBefore(batch) && (batch == 0 ==> last > 0)
  }

  lemma NextBatch(a: Db, b: Db, c: Db, n: nat, rawCut: int, payloadCut: int, fault: Fault, batch: nat, last: nat,
                  total: seq<nat>, deleted: seq<nat>)
    requires BatchesGoOn(a, b, n, rawCut, payloadCut, fault, batch, last, total) && last > 0 && !fault.Strikes(batch)
    requires |deleted| == STATEMENTS && BatchDone(b, c, STATEMENTS, n, deleted, rawCut, payloadCut)
    ensures BatchesGoOn(a, c, n, rawCut, payloadCut, fault, batch + 1, Sum(deleted), Plus(total, deleted))
  {
    PurgeStep(a, b, c, batch, last, total, n, deleted, rawCut, payloadCut);
  }

  lemma LastBatch(a: Db, b: Db, maxBatches: int, n: nat, rawCut: int, payloadCut: int, fault: Fault, batch: nat,
                  last: nat, total: seq<nat>)
    requires BatchesGoOn(a, b, n, rawCut, payloadCut, fault, batch, last, total)
    requires 0 < maxBatches && batch <= maxBatches && (batch == maxBatches || last == 0)
    ensures BatchesDone(a, b, maxBatches, n, rawCut, payloadCut, fault, true, batch, last, total, b)
  {
  }

  function BatchStatus(ok: bool, batch: nat, last: nat, maxBatches: int): PurgeStatus {
    if !ok then PurgeErrorHandled
    else if batch >= maxBatches && last > 0 then PurgeAvailableLimited
    else PurgeAvailable
  }

  lemma ReportFollows(a: Db, b: Db, maxBatches: int, n: nat, rawCut: int, payloadCut: int, fault: Fault,
                      ok: bool, batch: nat, last: nat, entry: PurgeRun, partial: Db)
    requires BatchesDone(a, b, maxBatches, n, rawCut, payloadCut, fault, ok, batch, last, entry.deleted, partial)
    requires entry.status == BatchStatus(ok, batch, last, maxBatches) && entry.batches == batch
    ensures PurgeReported(a, b, entry, n, maxBatches, fault, partial, rawCut, payloadCut)
  {
  }

  /** What a recorded purge run claims about the change from `a` to `b`: the
    * counters are the exact row differences up to `partial`, which is `b` unless
    * a failed batch was rolled back; ERROR_HANDLED is the fault's batch, and no
    * batch before it failed; AVAILABLE with a positive batch size is a fixpoint,
    * and AVAILABLE_LIMITED deleted at least one row per batch. */
  ghost predicate PurgeReported(a: Db, b: Db, entry: PurgeRun, n: nat, maxBatches: int, fault: Fault,
                                partial: Db, rawCut: int, payloadCut: int) {
    && |entry.deleted| == STATEMENTS && entry.batches <= maxBatches
    && PurgeEffect(a, b, rawCut, payloadCut)
    && (forall j | 0 <= j < STATEMENTS :: entry.deleted[j] == Rows(a, j) - Rows(partial, j))
    && entry.status in {PurgeAvailable, PurgeAvailableLimited, PurgeErrorHandled}
    && !fault.StruckBefore(entry.batches)
    && (entry.status != PurgeErrorHandled ==> partial == b && 0 < entry.batches)
    && (entry.status == PurgeErrorHandled ==>
          && fault.Strikes(entry.batches) && (entry.batches == 0 ==> a == b)
          && PurgeEffect(b, partial, rawCut, payloadCut) && TotalRows(b) + entry.batches <= TotalRows(a)
          && (SameRows(b, partial) <==> IdleBefore(b, fault, n, rawCut, payloadCut)))
    && (entry.status == PurgeAvailable && n > 0 ==> Fixpoint(b, rawCut, payloadCut))
    && (entry.status == PurgeAvailableLimited ==>
          entry.batches == maxBatches && TotalRows(b) + maxBatches <= TotalRows(a))
  }

  /** The recorded counters are the rows by which the tables before and after differ. */
  predicate CountersTrue(a: Db, b: Db, entry: PurgeRun) {
    |entry.deleted| == STATEMENTS && forall j | 0 <= j < STATEMENTS :: entry.deleted[j] == Rows(a, j) - Rows(b, j)
  }

  /** The recorded counters are true if and only if the run did not fail, or the
    * batch size is 0, or before the failing statement no delete statement matches
    * a row of the tables the run leaves. */
  lemma CountersExactly(a: Db, b: Db, entry: PurgeRun, n: nat, maxBatches: int, fault: Fault, partial: Db,
                        rawCut: int, payloadCut: int)
    requires PurgeReported(a, b, entry, n, maxBatches, fault, partial, rawCut, payloadCut)
    ensures CountersTrue(a, b, entry) <==>
            entry.status != PurgeErrorHandled || IdleBefore(b, fault, n, rawCut, payloadCut)
  {
    assert CountersTrue(a, b, entry) <==> SameRows(b, partial);
  }

  lemma ReportedRetention(a: Db, b: Db, entry: PurgeRun, n: nat, maxBatches: int, fault: Fault, partial: Db,
                          rawCut: int, payloadCut: int)
    ensures PurgeReported(a, b, entry, n, maxBatches, fault, partial, rawCut, payloadCut) ==>
      OnlyExpiredGone(a, b, rawCut, payloadCut)
      && (entry.status != PurgeAvailable || n == 0 || NothingExpiredLeft(b, rawCut, payloadCut))
  {
    if PurgeReported(a, b, entry, n, maxBatches, fault, partial, rawCut, payloadCut) {
      PurgedWithReason(a, b, rawCut, payloadCut);
      if entry.status == PurgeAvailable && n > 0 {
        FixpointIsClean(b, rawCut, payloadCut);
      }
    }
  }

  lemma OneSampleDeleted(db: Db, key: SampleKey, none: seq<nat>, rawCut: int, payloadCut: int)
    requires Consistent(db) && ExpiredSamples(db, rawCut) == {key} && none == NO_ROWS
    ensures BatchDone(db, db.(samples := db.samples - {key}), 1, 1, none[0 := 1], rawCut, payloadCut)
  {
    SamplesPurge(db, {key}, 1, rawCut, payloadCut);
    BatchStart(db, 1, rawCut, payloadCut);
    BatchStep(db, db, db.(samples := db.samples - {key}), 0, 1, 1, none, rawCut, payloadCut);
  }

  lemma NothingPlus(none: seq<nat>, deleted: seq<nat>)
    requires none == NO_ROWS && |deleted| == STATEMENTS
    ensures Plus(none, deleted) == deleted
  {
  }

  /** A first batch that fails is recorded with what it had deleted before. */
  lemma FailedFirstBatch(db: Db, partial: Db, none: seq<nat>, fault: Fault, n: nat, entry: PurgeRun, maxBatches: nat,
                         rawCut: int, payloadCut: int)
    requires Consistent(db) && none == NO_ROWS && fault.Strikes(0)
    requires |entry.deleted| == STATEMENTS && entry.status == PurgeErrorHandled && entry.batches == 0
    requires BatchDone(db, partial, fault.statement, n, entry.deleted, rawCut, payloadCut)
    ensures PurgeReported(db, db, entry, n, maxBatches, fault, partial, rawCut, payloadCut)
  {
    PurgeStart(db, rawCut, payloadCut);
    NothingPlus(none, entry.deleted);
    FailedBatch(db, db, partial, maxBatches, 0, 1, none, fault, n, entry.deleted, rawCut, payloadCut);
    ReportFollows(db, db, maxBatches, n, rawCut, payloadCut, fault, false, 0, 1, entry, partial);
  }

  /** One expired sample and a failure before the second statement: the rollback
    * leaves the tables as they were, yet the record counts one deleted sample. */
  lemma RolledBackRowsAreCounted(sample: Sample) returns (db: Db, entry: PurgeRun, partial: Db)
    requires sample.collected == 0
    ensures Consistent(db) && entry.status == PurgeErrorHandled && entry.deleted == [1, 0, 0, 0, 0]
    ensures PurgeReported(db, db, entry, 1, 1, FaultAt(0, 1), partial, 1, 1)
    ensures !CountersTrue(db, db, entry)
  {
    var run := Run(PerformanceCounters, 0, Some(0), Available, None, None, 1, 0);
    var key := SampleKey(1, ServerScope, OtherMetric(0));
    db := Db(map[1 := run], map[key := sample], map[], map[], {ServerScope}, 2, 0);
    partial := db.(samples := db.samples - {key});
    entry := PurgeRun(0, Some(0), PurgeErrorHandled, 0, [1, 0, 0, 0, 0]);
    assert ExpiredSamples(db, 1) == {key};
    OneSampleDeleted(db, key, NO_ROWS, 1, 1);
    FailedFirstBatch(db, partial, NO_ROWS, FaultAt(0, 1), 1, entry, 1, 1, 1);
  }

  /** Whether the newest successful purge is older than the interval. */
  predicate PurgeDue(history: seq<PurgeRun>, intervalMinutes: nat, now: int) {
    if history == [] then true
    else
      var entry := history[|history| - 1];
      if entry.status in {PurgeAvailable, PurgeAvailableLimited} && entry.ended.Some? then
        entry.ended.value + intervalMinutes * 60000 <= now
      else PurgeDue(history[..|history| - 1], intervalMinutes, now)
  }
}
