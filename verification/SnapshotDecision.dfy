/** The decisions of one capture: every stored capture meets its contract, a
  * retained epoch continues its predecessor exactly, and a damaged
  * predecessor is never continued. */
module SnapshotDecision {
  import opened Common
  import opened SnapshotTables
  import opened SnapshotCapture
  import opened SnapshotAgreement

  ghost predicate PreviousOk(p: Previous, r: RunId) {
    p.Previous? ==>
      && 0 < p.run < r
      && (p.version.Some? ==> p.version.value > 0)
      && (p.contextValid ==> p.version == Some(1) && p.epoch.Some? && p.epoch.value != 0)
      && (p.rawValid ==> p.contextValid)
  }

  lemma PreviousFacts(db: Db, r: RunId)
    requires Consistent(db)
    ensures var p := ReadPrevious(db, r);
      && PreviousOk(p, r)
      && (p.Previous? ==> FinalizedWait(db, p.run) && p.epoch == db.runs[p.run].epoch)
      && (p.Previous? && p.rawValid ==> |SamplesOfRun(db, p.run)| == db.runs[p.run].sampleCount)
  {
  }

  /** `rows` are the `maxRows` smallest eligible types with their current counters. */
  ghost predicate SelectedFrom(waits: map<WaitType, Counters>, eligible: set<WaitType>,
                               rows: map<WaitType, Counters>, maxRows: int) {
    && rows.Keys <= eligible <= waits.Keys && |rows| == Min(maxRows, |eligible|)
    && (|rows| == |eligible| ==> rows.Keys == eligible)
    && (forall t | t in rows :: rows[t] == waits[t])
    && (forall t, u | t in rows && u in eligible - rows.Keys :: t < u)
    && |ActiveOf(rows)| <= |ActiveOf(waits)| <= |eligible| <= |waits|
    && (|rows| == |eligible| ==> |ActiveOf(rows)| == |ActiveOf(waits)|)
  }

  lemma SelectionFacts(waits: map<WaitType, Counters>, hints: set<WaitType>, maxRows: int)
    requires maxRows >= 1
    ensures SelectedFrom(waits, Eligible(waits, hints), Select(waits, hints, maxRows), maxRows)
  {
    var rows, eligible := Select(waits, hints, maxRows), Eligible(waits, hints);
    assert rows.Keys == Lowest(eligible, maxRows);
    SubsetSize(rows.Keys, eligible);
    SubsetSize(ActiveOf(rows), ActiveOf(waits));
    SubsetSize(ActiveOf(waits), eligible);
    SubsetSize(eligible, waits.Keys);
    if |rows| == |eligible| {
      assert ActiveOf(rows) == ActiveOf(waits);
    }
  }

  /** Status and decision always form a pair the validator admits. */
  lemma DecisionFacts(p: Previous, s: Source, start: int, end: int, waits: map<WaitType, Counters>,
                      limited: bool, common: set<WaitType>)
    requires waits.Keys != {} ==> s.waits != []
    requires limited ==> s.waits != []
    ensures var status := StatusFor(p, s, start, end, waits, limited, common);
      var decision := DecisionFor(p, s, waits, status);
      && (p.NoPrevious? <==> decision == NewFirst)
      && (status == FirstObservation ==> p.NoPrevious?)
      && (p.NoPrevious? ==> status in {SourceEmptyUnproven, WriteLimited, FirstObservation})
      && (decision == RetainContext <==> status in COMPARED)
      && (decision in {RetainContext, NewEngineContext, NewCounterDecrease} ==> p.Previous? && p.contextValid)
      && (decision == NewCounterDecrease ==> s.waits != [])
      && (status == EngineContextChanged ==> decision == NewEngineContext)
      && (status == CounterDecrease ==> decision == NewCounterDecrease)
  {
  }

  lemma RowMapSize(rows: seq<WaitRow>)
    ensures |RowMap(rows)| <= |rows| && (rows == [] <==> RowMap(rows) == map[])
  {
  }

  lemma CompareDecides(p: Previous, r: RunId, started: int, s: Source, waits: map<WaitType, Counters>,
                       rows: map<WaitType, Counters>, eligible: nat, newId: Epoch, checked: int, finished: int)
    requires PreviousOk(p, r) && s.complete && SourceOk(s, started, checked)
    requires waits.Keys != {} ==> s.waits != []
    requires |rows| < eligible ==> s.waits != []
    requires forall t | t in rows :: t in waits && rows[t] == waits[t]
    ensures ContextDecisionOk(ContextOf(Compare(p, r, started, s, waits, rows, eligible, newId, finished)))
  {
    var c := Compare(p, r, started, s, waits, rows, eligible, newId, finished);
    DecisionFacts(p, s, c.start, c.end, waits, |rows| < eligible, rows.Keys * PreviousRows(p).Keys);
    BaseFacts(p, s, waits, rows, |rows| < eligible, c);
    assert |c.base| != 0 <==> c.base != map[];
  }

  lemma CompareMeetsContract(p: Previous, r: RunId, started: int, s: Source, waits: map<WaitType, Counters>,
                             eligible: set<WaitType>, rows: map<WaitType, Counters>, maxRows: int,
                             newId: Epoch, checked: int, finished: int)
    requires PreviousOk(p, r) && 0 < r && s.complete && SourceOk(s, started, checked)
    requires waits == RowMap(s.waits) && 1 <= maxRows <= 100000 && SelectedFrom(waits, eligible, rows, maxRows)
    requires var c := Compare(p, r, started, s, waits, rows, |eligible|, newId, finished);
      c.epoch != 0 && c.end <= finished
    ensures CaptureOk(Compare(p, r, started, s, waits, rows, |eligible|, newId, finished))
  {
    var c := Compare(p, r, started, s, waits, rows, |eligible|, newId, finished);
    RowMapSize(s.waits);
    assert |rows| < |eligible| ==> s.waits != [] by {
      if s.waits == [] { assert eligible == {}; }
    }
    CompareDecides(p, r, started, s, waits, rows, |eligible|, newId, checked, finished);
    assert c.previous.None? <==> c.decision == NewFirst;
    assert forall t | t in c.base :: c.rows[t].AtLeast(c.base[t]) by {
      BaseFacts(p, s, waits, rows, |rows| < |eligible|, c);
    }
  }

  lemma BaseFacts(p: Previous, s: Source, waits: map<WaitType, Counters>, rows: map<WaitType, Counters>,
                  limited: bool, c: Capture)
    requires s.start.Some? && s.end.Some?
    requires forall t | t in rows :: t in waits && rows[t] == waits[t]
    requires c.rows == rows
    requires c.status == StatusFor(p, s, s.start.value, s.end.value, waits, limited, rows.Keys * PreviousRows(p).Keys)
    requires c.base == if c.status == MonotonicContinuityUnproven then Restrict(PreviousRows(p), rows.Keys) else map[]
    ensures c.base != map[] <==> c.status == MonotonicContinuityUnproven
    ensures forall t | t in c.base :: t in c.rows && c.rows[t].AtLeast(c.base[t])
  {
    if c.status == MonotonicContinuityUnproven {
      var t :| t in rows.Keys * PreviousRows(p).Keys;
      assert t in c.base;
    }
  }

  /** Every capture the procedure stores meets the writer's contract, and takes
    * exactly the smallest eligible types up to the policy limit. */
  lemma WriterContract(db: Db, r: RunId, started: int, policy: Policy, s: Source, newId: Epoch, clock: Clock)
    requires Consistent(db) && 0 < r
    requires PolicyOk(policy) && s.complete && SourceOk(s, started, clock.checked)
    requires var c := Analyse(db, r, started, policy, s, newId, clock); EpochOk(db, c) && c.end <= clock.finished
    ensures CaptureOk(Analyse(db, r, started, policy, s, newId, clock))
  {
    var p := ReadPrevious(db, r);
    var waits := RowMap(s.waits);
    var hints := HintedTypes(db, p);
    PreviousFacts(db, r);
    SelectionFacts(waits, hints, policy.maxRows);
    CompareMeetsContract(p, r, started, s, waits, Eligible(waits, hints), Select(waits, hints, policy.maxRows),
                         policy.maxRows, newId, clock.checked, clock.finished);
  }

  // ---------- continuing the predecessor ----------

  /** Run `c.run` is stored as captured, except that a purge may have removed
    * some of its samples. */
  ghost predicate Remains(db: Db, c: Capture) {
    && c.base.Keys <= c.rows.Keys
    && c.run in db.runs && (exists payloads: nat :: db.runs[c.run] == RunOf(c, payloads))
    && (forall k | k in db.samples && k.run == c.run :: Stores(c, k) && db.samples[k] == SampleAt(c, k))
    && ServerScope in db.scopes
  }

  ghost predicate NothingRemoved(db: Db, c: Capture) {
    forall k | Stores(c, k) :: k in db.samples
  }

  lemma NothingRemovedIsUntouched(db: Db, c: Capture)
    requires Remains(db, c)
    ensures NothingRemoved(db, c) ==> Untouched(db, c)
    ensures |SamplesOfRun(db, c.run)| == db.runs[c.run].sampleCount <==> NothingRemoved(db, c)
  {
    var stored := SamplesOfRun(db, c.run);
    var written := SamplesOf(c);
    assert stored.Keys <= written.Keys;
    SubsetSize(stored.Keys, written.Keys);
    if NothingRemoved(db, c) {
      assert stored.Keys == written.Keys;
    }
    assert |stored| == |stored.Keys| && |written| == |written.Keys|;
  }

  /** The exact condition: the next capture trusts the predecessor's raw values
    * if and only if no sample of it was removed. */
  lemma PredecessorTrusted(db: Db, r: RunId, c: Capture)
    requires CaptureOk(c) && Remains(db, c) && LatestFinalized(db, r) == Some(c.run)
    ensures var p := ReadPrevious(db, r);
      && p.Previous? && p.run == c.run && p.epoch == Some(c.epoch)
      && (p.rawValid <==> NothingRemoved(db, c))
      && (NothingRemoved(db, c) ==>
            p.contextValid && p.rows == c.rows && p.engine == c.engine && p.end == c.end && p.version == Some(1)
            && (p.technicalPartial <==> |c.rows| < c.eligible || c.native == 0))
  {
    NothingRemovedIsUntouched(db, c);
    if NothingRemoved(db, c) {
      WriterMeetsValidator(db, c);
    }
  }

  /** A purged sample of the predecessor rules out retention and candidates. */
  lemma DamageBreaksEpoch(db: Db, r: RunId, c: Capture, started: int, policy: Policy, s: Source, newId: Epoch,
                          clock: Clock)
    requires CaptureOk(c) && Remains(db, c) && LatestFinalized(db, r) == Some(c.run)
    requires PolicyOk(policy) && s.complete && SourceOk(s, started, clock.checked)
    requires !NothingRemoved(db, c)
    ensures var next := Analyse(db, r, started, policy, s, newId, clock);
      next.decision != RetainContext && next.base == map[] && next.epoch == newId
  {
    PredecessorTrusted(db, r, c);
  }

  lemma CompareFacts(p: Previous, r: RunId, started: int, s: Source, waits: map<WaitType, Counters>,
                     rows: map<WaitType, Counters>, eligible: nat, newId: Epoch, finished: int)
    requires s.engine.Some? && s.start.Some? && s.end.Some?
    ensures var c := Compare(p, r, started, s, waits, rows, eligible, newId, finished);
      && c.run == r && c.started == started && c.finished == finished && c.end == s.end.value
      && c.previous == (if p.Previous? then Some(p.run) else None)
      && (c.decision != RetainContext ==> c.epoch == newId && c.base == map[])
  {
  }

  lemma PreviousIsLatest(db: Db, r: RunId)
    ensures var p := ReadPrevious(db, r); LatestFinalized(db, r) == if p.Previous? then Some(p.run) else None
  {
  }

  lemma NewEpochFacts(db: Db, r: RunId, started: int, policy: Policy, s: Source, newId: Epoch, clock: Clock)
    requires PolicyOk(policy) && s.complete && SourceOk(s, started, clock.checked)
    ensures var c := Analyse(db, r, started, policy, s, newId, clock);
      && c.run == r && c.started == started && c.finished == clock.finished && c.end == s.end.value
      && c.previous == LatestFinalized(db, r)
      && (c.decision != RetainContext ==> c.epoch == newId && c.base == map[])
  {
    var p := ReadPrevious(db, r);
    var waits := RowMap(s.waits);
    var hints := HintedTypes(db, p);
    PreviousIsLatest(db, r);
    CompareFacts(p, r, started, s, waits, Select(waits, hints, policy.maxRows), |Eligible(waits, hints)|,
                 newId, clock.finished);
  }

  lemma HintsCover(db: Db, c: Capture, p: Previous)
    requires Consistent(db) && Untouched(db, c) && p.Previous? && p.run == c.run
    ensures c.rows.Keys <= HintedTypes(db, p)
  {
    var samples := SamplesOfRun(db, c.run);
    StoredTypes(samples, c);
    forall t | t in c.rows ensures WaitTypeScope(t) in db.scopes {
      assert TypeKey(c.run, t, TaskCount) in samples;
    }
  }

  lemma RetainedSelection(p: Previous, r: RunId, started: int, s: Source, waits: map<WaitType, Counters>,
                          hints: set<WaitType>, rows: map<WaitType, Counters>, maxRows: int, newId: Epoch,
                          finished: int)
    requires s.engine.Some? && s.start.Some? && s.end.Some?
    requires SelectedFrom(waits, Eligible(waits, hints), rows, maxRows) && maxRows >= 1
    requires p.Previous? ==> p.rows.Keys <= hints
    requires var c := Compare(p, r, started, s, waits, rows, |Eligible(waits, hints)|, newId, finished);
      c.decision == RetainContext
    ensures var c := Compare(p, r, started, s, waits, rows, |Eligible(waits, hints)|, newId, finished);
      && p.Previous? && c.previous == Some(p.run) && p.rawValid && c.base == p.rows
      && (p.epoch.Some? ==> c.epoch == p.epoch.value) && c.status in COMPARED
      && p.engine == c.engine && p.end <= c.start
  {
    var c := Compare(p, r, started, s, waits, rows, |Eligible(waits, hints)|, newId, finished);
    assert c.status in COMPARED;
    assert p.rows.Keys <= waits.Keys;
    assert p.rows.Keys <= Eligible(waits, hints) == rows.Keys;
    assert Restrict(p.rows, rows.Keys) == p.rows;
    if c.status == NoComparableTypes {
      assert p.rows.Keys == rows.Keys * p.rows.Keys == {};
      assert p.rows == map[];
    }
  }

  /** A retained epoch continues its predecessor: same epoch and engine, the
    * whole predecessor as base, and therefore no type lost and no counter
    * decreased. */
  lemma RetainContinues(db: Db, r: RunId, c: Capture, started: int, policy: Policy, s: Source, newId: Epoch,
                        clock: Clock)
    requires Consistent(db) && CaptureOk(c) && Remains(db, c) && LatestFinalized(db, r) == Some(c.run)
    requires PolicyOk(policy) && s.complete && SourceOk(s, started, clock.checked)
    requires Analyse(db, r, started, policy, s, newId, clock).decision == RetainContext
    ensures var next := Analyse(db, r, started, policy, s, newId, clock);
      && next.previous == Some(c.run) && next.epoch == c.epoch && next.engine == c.engine && c.end <= next.start
      && next.base == c.rows
  {
    var p := ReadPrevious(db, r);
    var waits := RowMap(s.waits);
    var hints := HintedTypes(db, p);
    PredecessorTrusted(db, r, c);
    NothingRemovedIsUntouched(db, c);
    SelectionFacts(waits, hints, policy.maxRows);
    if NothingRemoved(db, c) {
      HintsCover(db, c, p);
    } else {
      DamageBreaksEpoch(db, r, c, started, policy, s, newId, clock);
    }
    RetainedSelection(p, r, started, s, waits, hints, Select(waits, hints, policy.maxRows), policy.maxRows,
                      newId, clock.finished);
  }

  // ---------- exactly when an epoch is retained ----------

  /** Types of `c` that the current waits still show. */
  function EligibleAfter(c: Capture, s: Source): set<WaitType> {
    Eligible(RowMap(s.waits), c.rows.Keys)
  }

  /** No sample of the predecessor was purged, neither capture was limited or
    * empty, the engine is the same, the window is later, and no type
    * disappeared or decreased. */
  ghost predicate RetainsExactly(db: Db, c: Capture, policy: Policy, s: Source) {
    NothingRemoved(db, c) && FollowsOn(c, policy, s)
  }

  predicate FollowsOn(c: Capture, policy: Policy, s: Source) {
    var waits := RowMap(s.waits);
    && c.native != 0 && |c.rows| == c.eligible
    && s.waits != [] && |EligibleAfter(c, s)| <= policy.maxRows
    && s.engine == Some(c.engine)
    && s.start.Some? && s.end.Some? && c.end <= s.start.value && c.end < s.end.value
    && forall t | t in c.rows :: t in waits && waits[t].AtLeast(c.rows[t])
  }

  lemma RetainIffUnchallenged(p: Previous, s: Source, start: int, end: int, waits: map<WaitType, Counters>,
                              limited: bool, common: set<WaitType>)
    ensures DecisionFor(p, s, waits, StatusFor(p, s, start, end, waits, limited, common)) == RetainContext
      <==> s.waits != [] && !limited && p.Previous? && !p.technicalPartial && p.contextValid && p.rawValid
           && !EngineChanged(p, s) && !IntervalInvalid(p, start, end) && !TypeMissing(p, waits)
           && !Decreased(p, s, waits)
  {
  }

  lemma HintsExactly(db: Db, c: Capture, p: Previous)
    requires Consistent(db) && Untouched(db, c) && p.Previous? && p.run == c.run
    ensures HintedTypes(db, p) == c.rows.Keys
  {
    HintsCover(db, c, p);
    StoredTypes(SamplesOfRun(db, c.run), c);
  }

  lemma LimitedExactly(waits: map<WaitType, Counters>, hints: set<WaitType>, maxRows: int)
    requires maxRows >= 1
    ensures |Select(waits, hints, maxRows)| < |Eligible(waits, hints)| <==> |Eligible(waits, hints)| > maxRows
  {
    SelectionFacts(waits, hints, maxRows);
  }

  /** The retain condition on the values the procedure reads. */
  ghost predicate RetainsAsRead(p: Previous, waits: map<WaitType, Counters>, hints: set<WaitType>, policy: Policy,
                                s: Source)
    requires s.start.Some? && s.end.Some?
  {
    && s.waits != [] && |Eligible(waits, hints)| <= policy.maxRows
    && p.Previous? && !p.technicalPartial && p.contextValid && p.rawValid
    && !EngineChanged(p, s) && !IntervalInvalid(p, s.start.value, s.end.value)
    && !TypeMissing(p, waits) && !Decreased(p, s, waits)
  }

  /** The decision expressed on the predecessor as read. */
  lemma RetainAsRead(db: Db, r: RunId, started: int, policy: Policy, s: Source, newId: Epoch, clock: Clock)
    requires PolicyOk(policy) && s.complete && SourceOk(s, started, clock.checked)
    ensures var p, waits := ReadPrevious(db, r), RowMap(s.waits); var hints := HintedTypes(db, p);
      Analyse(db, r, started, policy, s, newId, clock).decision == RetainContext
      <==> RetainsAsRead(p, waits, hints, policy, s)
  {
    var p, waits := ReadPrevious(db, r), RowMap(s.waits);
    var hints := HintedTypes(db, p);
    var rows := Select(waits, hints, policy.maxRows);
    LimitedExactly(waits, hints, policy.maxRows);
    RetainIffUnchallenged(p, s, s.start.value, s.end.value, waits, |rows| < |Eligible(waits, hints)|,
                          rows.Keys * PreviousRows(p).Keys);
  }

  /** A trusted predecessor leaves exactly the comparisons with the current waits. */
  lemma TrustedComparison(p: Previous, c: Capture, s: Source, waits: map<WaitType, Counters>)
    requires p.Previous? && p.contextValid && p.rawValid && s.start.Some? && s.end.Some?
    requires p.rows == c.rows && p.engine == c.engine && p.end == c.end
    ensures !EngineChanged(p, s) && !IntervalInvalid(p, s.start.value, s.end.value)
            && !TypeMissing(p, waits) && !Decreased(p, s, waits)
       <==> s.engine == Some(c.engine) && c.end <= s.start.value && c.end < s.end.value
            && forall t | t in c.rows :: t in waits && waits[t].AtLeast(c.rows[t])
  {
  }

  lemma TrustedFollowsOn(p: Previous, c: Capture, policy: Policy, s: Source)
    requires CaptureOk(c) && p.Previous? && p.contextValid && p.rawValid && s.start.Some? && s.end.Some?
    requires p.rows == c.rows && p.engine == c.engine && p.end == c.end
    requires p.technicalPartial <==> |c.rows| < c.eligible || c.native == 0
    ensures RetainsAsRead(p, RowMap(s.waits), c.rows.Keys, policy, s) <==> FollowsOn(c, policy, s)
  {
    TrustedComparison(p, c, s, RowMap(s.waits));
  }

  /** Any condition that agrees with the one on the values as read agrees with the
    * one on the tables. */
  lemma RetainFromTables(retains: bool, db: Db, r: RunId, c: Capture, policy: Policy, s: Source)
    requires Consistent(db) && CaptureOk(c) && Remains(db, c) && LatestFinalized(db, r) == Some(c.run)
    requires s.start.Some? && s.end.Some?
    requires var p, waits := ReadPrevious(db, r), RowMap(s.waits);
      retains <==> RetainsAsRead(p, waits, HintedTypes(db, p), policy, s)
    ensures retains <==> RetainsExactly(db, c, policy, s)
  {
    var p := ReadPrevious(db, r);
    PredecessorTrusted(db, r, c);
    if NothingRemoved(db, c) {
      NothingRemovedIsUntouched(db, c);
      HintsExactly(db, c, p);
      TrustedFollowsOn(p, c, policy, s);
    }
  }

  /** The epoch is retained if and only if `RetainsExactly` holds. */
  lemma RetainCondition(db: Db, r: RunId, c: Capture, started: int, policy: Policy, s: Source, newId: Epoch,
                        clock: Clock)
    requires Consistent(db) && CaptureOk(c) && Remains(db, c) && LatestFinalized(db, r) == Some(c.run)
    requires PolicyOk(policy) && s.complete && SourceOk(s, started, clock.checked)
    ensures Analyse(db, r, started, policy, s, newId, clock).decision == RetainContext
       <==> RetainsExactly(db, c, policy, s)
  {
    RetainAsRead(db, r, started, policy, s, newId, clock);
    var retains := Analyse(db, r, started, policy, s, newId, clock).decision == RetainContext;
    RetainFromTables(retains, db, r, c, policy, s);
  }

  // ---------- quantities of a stored capture ----------

  lemma CapturedIsAnalysed(db: Db, r: RunId, policy: Policy, s: Source, newId: Epoch, clock: Clock, f: Failure)
    requires Complete(db, r, policy, s, newId, clock, f).1.Captured?
    ensures OwnOpenRun(db, r) && PolicyOk(policy) && s.complete && SourceOk(s, db.runs[r].started, clock.checked)
    ensures Complete(db, r, policy, s, newId, clock, f) ==
            CompleteCapture(db, Analyse(db, r, db.runs[r].started, policy, s, newId, clock), policy.payloadEnabled,
                            clock, f)
  {
  }

  lemma CapturedIsInserted(db: Db, c: Capture, payloadEnabled: bool, clock: Clock, f: Failure)
    requires c.run in db.runs && c.base.Keys <= c.rows.Keys
    requires CompleteCapture(db, c, payloadEnabled, clock, f).1.Captured?
    ensures CompleteCapture(db, c, payloadEnabled, clock, f) == (Insert(db, c, payloadEnabled), Captured(c))
  {
  }

  lemma SelectedQuantity(db: Db, r: RunId, started: int, policy: Policy, s: Source, newId: Epoch, clock: Clock)
    requires PolicyOk(policy) && s.complete && SourceOk(s, started, clock.checked)
    ensures var c := Analyse(db, r, started, policy, s, newId, clock);
      |c.base| <= |c.rows| == Min(policy.maxRows, c.eligible)
  {
    SelectionFacts(RowMap(s.waits), HintedTypes(db, ReadPrevious(db, r)), policy.maxRows);
    var c := Analyse(db, r, started, policy, s, newId, clock);
    SubsetSize(c.base.Keys, c.rows.Keys);
  }

  /** A stored capture has exactly 5W + 3C + 1 samples and says so in its row. */
  lemma InsertQuantity(db: Db, c: Capture, payloadEnabled: bool)
    requires c.base.Keys <= c.rows.Keys && OwnOpenRun(db, c.run)
    ensures var after := Insert(db, c, payloadEnabled);
      |SamplesOfRun(after, c.run)| == after.runs[c.run].sampleCount == 5 * |c.rows| + 3 * |c.base| + 1
  {
    InsertedSamples(db, c, payloadEnabled);
    SampleQuantity(c);
  }

  /** A successful completion stored exactly 5W + 3C + 1 samples for its run,
    * where C <= W = min(MaxRows, eligible types): the procedure's own count
    * checks never fire. */
  lemma CaptureQuantity(db: Db, r: RunId, policy: Policy, s: Source, newId: Epoch, clock: Clock, f: Failure,
                        after: Db, c: Capture)
    requires Complete(db, r, policy, s, newId, clock, f) == (after, Captured(c))
    ensures r in after.runs
    ensures |SamplesOfRun(after, r)| == after.runs[r].sampleCount == 5 * |c.rows| + 3 * |c.base| + 1
    ensures |c.base| <= |c.rows| == Min(policy.maxRows, c.eligible)
    ensures 5 * |c.rows| + 3 * |c.base| + 1 <= 8 * policy.maxRows + 1
  {
    CapturedIsAnalysed(db, r, policy, s, newId, clock, f);
    CapturedIsInserted(db, Analyse(db, r, db.runs[r].started, policy, s, newId, clock), policy.payloadEnabled,
                       clock, f);
    SelectedQuantity(db, r, db.runs[r].started, policy, s, newId, clock);
    InsertQuantity(db, c, policy.payloadEnabled);
  }

  lemma InsertedSamples(db: Db, c: Capture, payloadEnabled: bool)
    requires c.base.Keys <= c.rows.Keys && OwnOpenRun(db, c.run)
    ensures SamplesOfRun(Insert(db, c, payloadEnabled), c.run) == SamplesOf(c)
  {
    assert Insert(db, c, payloadEnabled).samples == db.samples + SamplesOf(c);
    AddedSamples(db.samples, SamplesOf(c), c.run);
  }

  lemma AddedSamples(stored: map<SampleKey, Sample>, written: map<SampleKey, Sample>, r: RunId)
    requires forall k | k in stored :: k.run != r
    requires forall k | k in written :: k.run == r
    ensures (map k | k in stored + written && k.run == r :: (stored + written)[k]) == written
  {
  }
}
