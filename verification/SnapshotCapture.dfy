/** One Wait capture: what it reads back from its predecessor, how it decides
  * comparison status and epoch, and the rows it writes. */
module SnapshotCapture {
  import opened Common
  import opened SnapshotTables

  // ---------- the transient source contract ----------

  datatype SourceStatus = SourceAvailable | SourceEmpty | SourceDenied | SourceMissing | SourceError

  datatype WaitRow = WaitRow(waitType: WaitType, counters: Counters)

  datatype Source = Source(
    complete: bool, status: SourceStatus, partial: bool, error: Option<int>, message: bool,
    nativeRows: Option<int>, engine: Option<Engine>, start: Option<int>, end: Option<int>,
    waits: seq<WaitRow>)

  /** The three successive readings of the server clock during one completion. */
  datatype Clock = Clock(checked: int, finished: int, closing: int)

  datatype Policy = Policy(enabled: bool, maxRows: int, payloadEnabled: bool, intervalSeconds: int)

  predicate PolicyOk(p: Policy) {
    p.enabled && 1 <= p.maxRows <= 100000
  }

  predicate DistinctTypes(rows: seq<WaitRow>) {
    forall i, j | 0 <= i < j < |rows| :: rows[i].waitType != rows[j].waitType
  }

  /** The checks whose failure raises error 53763 for an own run. */
  predicate SourceOk(s: Source, started: int, now: int) {
    && (s.start.Some? == s.end.Some?)
    && (s.start.Some? ==> s.start.value <= s.end.value)
    && (s.error.Some? ==> s.error.value > 0)
    && (s.engine.Some? ==> 1 <= |s.engine.value.serverName| <= 128)
    && DistinctTypes(s.waits)
    && if s.complete then
         && s.status in {SourceAvailable, SourceEmpty}
         && s.engine.Some? && s.start.Some?
         && started <= s.start.value && s.end.value <= now
         && s.error.None? && !s.message
         && s.nativeRows == Some(|s.waits|)
         && (s.status == SourceAvailable ==> |s.waits| != 0 && !s.partial)
         && (s.status == SourceEmpty ==> |s.waits| == 0 && s.partial)
       else
         && s.status in {SourceDenied, SourceMissing, SourceError}
         && s.partial && s.waits == [] && s.nativeRows.None?
  }

  function RowMap(rows: seq<WaitRow>): (m: map<WaitType, Counters>)
    ensures |m| <= |rows|
    ensures rows != [] ==> m != map[]
    ensures forall t :: t in m <==> exists i :: 0 <= i < |rows| && rows[i].waitType == t
  {
    if rows == [] then map[]
    else
      var rest := RowMap(rows[1..]);
      var m := rest[rows[0].waitType := rows[0].counters];
      assert m.Keys == rest.Keys + {rows[0].waitType};
      m
  }

  // ---------- what a capture writes ----------

  /** Everything a successful capture decides and stores.  `base` holds the
    * predecessor's counters of exactly the comparable types. */
  datatype Capture = Capture(
    run: RunId, started: int, finished: int,
    previous: Option<RunId>, previousVersion: Option<int>,
    epoch: Epoch, engine: Engine, start: int, end: int,
    native: nat, active: nat, eligible: nat,
    rows: map<WaitType, Counters>, base: map<WaitType, Counters>,
    status: Comparison, decision: EpochDecision)

  const COMPARED: set<Comparison> := {NoComparableTypes, MonotonicContinuityUnproven}

  function RowStatus(c: Capture, t: WaitType): Comparison {
    if c.status !in COMPARED then c.status
    else if t in c.base then MonotonicContinuityUnproven
    else FirstObservation
  }

  function ContextOf(c: Capture): Context {
    Context(1, c.run, c.epoch, c.engine, c.start, c.end,
            c.native, c.active, c.eligible, |c.rows|, |c.rows| < c.eligible,
            4 * |c.rows|, c.rows,
            c.previous, c.previousVersion,
            c.status, |c.base|, 3 * |c.base|, c.decision)
  }

  function MetricKeys(run: RunId, types: set<WaitType>, metrics: set<Metric>): set<SampleKey> {
    set t, m | t in types && m in metrics :: SampleKey(run, WaitTypeScope(t), m)
  }

  function ContextKey(run: RunId): SampleKey {
    SampleKey(run, ServerScope, CaptureContext)
  }

  function KeysOf(c: Capture): set<SampleKey> {
    MetricKeys(c.run, c.rows.Keys, RAW_METRICS)
    + MetricKeys(c.run, c.base.Keys, DELTA_METRICS)
    + MetricKeys(c.run, c.rows.Keys, {DeltaStatus})
    + {ContextKey(c.run)}
  }

  function Difference(now: Counters, before: Counters, m: Metric): int
    requires m.IsDelta()
  {
    match m
    case TaskDelta => now.tasks - before.tasks
    case TimeDelta => now.waitTime - before.waitTime
    case SignalDelta => now.signalTime - before.signalTime
  }

  /** Whether a capture stores a sample under this key. */
  predicate Stores(c: Capture, k: SampleKey) {
    || k == ContextKey(c.run)
    || (k.run == c.run && k.scope.WaitTypeScope?
        && (if k.metric.IsDelta() then k.scope.waitType in c.base
            else (k.metric.IsRaw() || k.metric.DeltaStatus?) && k.scope.waitType in c.rows))
  }

  lemma KeysStored(c: Capture, k: SampleKey)
    ensures k in KeysOf(c) <==> Stores(c, k)
  {
    if k.scope.WaitTypeScope? {
      assert k == SampleKey(k.run, WaitTypeScope(k.scope.waitType), k.metric);
    }
  }

  function SampleAt(c: Capture, k: SampleKey): Sample
    requires c.base.Keys <= c.rows.Keys && Stores(c, k)
  {
    if k.metric == CaptureContext then
      Sample(c.end, c.epoch, Str(ContextText(ContextOf(c))), CaptureContextV1, false)
    else
      var t := k.scope.waitType;
      if k.metric == DeltaStatus then
        Sample(c.end, c.epoch, Str(StatusText(RowStatus(c, t))), ComparisonStatus, true)
      else if k.metric.IsDelta() then
        Sample(c.end, c.epoch, Bigint(Difference(c.rows[t], c.base[t], k.metric)), ContinuityUnproven, true)
      else
        Sample(c.end, c.epoch, Bigint(c.rows[t].Raw(k.metric)), MeasuredCumulative, false)
  }

  function SamplesOf(c: Capture): (samples: map<SampleKey, Sample>)
    requires c.base.Keys <= c.rows.Keys
    ensures forall k :: k in samples <==> Stores(c, k)
    ensures forall k | k in samples :: samples[k] == SampleAt(c, k)
  {
    assert forall k :: k in KeysOf(c) <==> Stores(c, k) by {
      forall k ensures k in KeysOf(c) <==> Stores(c, k) { KeysStored(c, k); }
    }
    map k | k in KeysOf(c) :: SampleAt(c, k)
  }

  function RunOf(c: Capture, payloads: nat): Run
    requires c.base.Keys <= c.rows.Keys
  {
    Run(WaitStats, c.started, Some(c.finished), PartialResult, None, Some(c.epoch), |SamplesOf(c)|, payloads)
  }

  function ScopesOf(c: Capture): set<Scope> {
    {ServerScope} + set t | t in c.rows :: WaitTypeScope(t)
  }

  // ---------- reading the predecessor back ----------

  function LatestFinalized(db: Db, below: RunId): Option<RunId> {
    var ids := set r | r in db.runs && FinalizedWait(db, r) && r < below;
    if ids == {} then None else Some(Greatest(ids))
  }

  /** The context text, if the run has exactly one context sample. */
  function StoredText(db: Db, r: RunId): Option<Text> {
    var keys := set k | k in db.samples && k.run == r && k.metric == CaptureContext;
    if |keys| == 1 then
      var s := db.samples[Only(keys)];
      if s.value.Str? then Some(s.value.text) else None
    else None
  }

  function StoredVersion(text: Option<Text>): Option<int> {
    match text
    case Some(ContextText(c)) => if c.schemaVersion > 0 then Some(c.schemaVersion) else None
    case Some(OtherText(Some(v))) => if v > 0 then Some(v) else None
    case _ => None
  }

  /** Field-level conditions on a parsed context. */
  predicate ContextShapeOk(c: Context) {
    && c.schemaVersion == 1 && c.run > 0 && c.epoch != 0 && 1 <= |c.engine.serverName| <= 128
    && (c.previousRun.Some? ==> c.previousRun.value > 0)
    && (c.previousVersion.Some? ==> c.previousVersion.value > 0)
  }

  /** The context belongs to this run row and to the server scope. */
  predicate ContextIdentityOk(db: Db, r: RunId, c: Context)
    requires r in db.runs
  {
    var row := db.runs[r];
    && ServerScope in db.scopes
    && row.epoch == Some(c.epoch)
    && c.run == r
    && row.ended.Some?
    && row.started <= c.start <= c.end <= row.ended.value
    && (c.previousRun.Some? ==> c.previousRun.value < r)
    && (c.previousRun.None? ==> c.previousVersion.None?)
    && (c.previousRun.None? <==> c.decision == NewFirst)
    && ContextKey(r) in db.samples
    && var s := db.samples[ContextKey(r)];
       s.epoch == c.epoch && s.collected == c.end && s.quality == CaptureContextV1 && !s.partial
  }

  predicate ContextBoundsOk(c: Context) {
    && c.written <= 100000 && c.comparable <= 100000 && c.candidates <= 300000 && c.rawCount <= 400000
    && c.comparable <= c.written <= c.eligible <= c.native
    && c.active <= c.eligible
    && (c.eligible > 0 ==> c.written > 0)
  }

  predicate ContextCountsOk(c: Context, sampleCount: nat) {
    && c.rawCount == 4 * c.written
    && c.candidates == 3 * c.comparable
    && (c.limited <==> c.written < c.eligible)
    && sampleCount == 5 * c.written + c.candidates + 1
  }

  /** The (status, decision) pairs and counts the validator admits. */
  predicate ContextDecisionOk(c: Context) {
    && (c.native == 0 <==> c.status == SourceEmptyUnproven)
    && (c.limited <==> c.status == WriteLimited)
    && (c.status == MonotonicContinuityUnproven <==> c.comparable != 0)
    && (c.status == FirstObservation ==> c.previousRun.None?)
    && (c.previousRun.None? ==> c.status in {SourceEmptyUnproven, WriteLimited, FirstObservation})
    && (c.decision == RetainContext <==> c.status in COMPARED)
    && (c.decision in {RetainContext, NewEngineContext, NewCounterDecrease} ==> c.previousVersion == Some(1))
    && (c.native == 0 ==> c.decision != NewCounterDecrease)
    && (c.status == EngineContextChanged ==> c.decision == NewEngineContext)
    && (c.status == CounterDecrease ==> c.decision == NewCounterDecrease)
  }

  predicate ContextValid(db: Db, r: RunId, c: Context)
    requires r in db.runs
  {
    && ContextShapeOk(c) && ContextIdentityOk(db, r, c) && ContextBoundsOk(c)
    && ContextCountsOk(c, db.runs[r].sampleCount) && ContextDecisionOk(c)
  }

  predicate SampleShapeOk(k: SampleKey, s: Sample, c: Context) {
    && s.epoch == c.epoch && s.collected == c.end
    && (k.metric != CaptureContext ==> k.scope.WaitTypeScope?)
    && match k.metric
       case OtherMetric(_) => false
       case CaptureContext => s.value.Str?
       case DeltaStatus => s.value.Str? && s.quality == ComparisonStatus && s.partial
       case _ =>
         && s.value.Bigint? && s.value.n >= 0
         && if k.metric.IsRaw() then s.quality == MeasuredCumulative && !s.partial
            else s.quality == ContinuityUnproven && s.partial
  }

  function TypesOf(samples: map<SampleKey, Sample>): set<WaitType> {
    set k | k in samples && k.metric != CaptureContext && !k.metric.OtherMetric? && k.scope.WaitTypeScope?
      :: k.scope.waitType
  }

  function TypeKey(r: RunId, t: WaitType, m: Metric): SampleKey {
    SampleKey(r, WaitTypeScope(t), m)
  }

  function CandidateCount(samples: map<SampleKey, Sample>, r: RunId, t: WaitType): nat {
    (if TypeKey(r, t, TaskDelta) in samples then 1 else 0)
    + (if TypeKey(r, t, TimeDelta) in samples then 1 else 0)
    + (if TypeKey(r, t, SignalDelta) in samples then 1 else 0)
  }

  predicate RawPresent(samples: map<SampleKey, Sample>, r: RunId, t: WaitType, m: Metric) {
    && TypeKey(r, t, m) in samples
    && samples[TypeKey(r, t, m)].value.Bigint? && samples[TypeKey(r, t, m)].value.n >= 0
  }

  /** One previous row: four raw values, one status, none or three candidates. */
  predicate RowOk(samples: map<SampleKey, Sample>, r: RunId, t: WaitType, status: Comparison) {
    && RawPresent(samples, r, t, TaskCount) && RawPresent(samples, r, t, WaitTime)
    && RawPresent(samples, r, t, MaxTime) && RawPresent(samples, r, t, SignalTime)
    && TypeKey(r, t, DeltaStatus) in samples
    && samples[TypeKey(r, t, DeltaStatus)].value.Str?
    && samples[TypeKey(r, t, DeltaStatus)].value.text.StatusText?
    && var own := samples[TypeKey(r, t, DeltaStatus)].value.text.status;
       var n := CandidateCount(samples, r, t);
       && (n == 0 || n == 3)
       && (n == 3 <==> own == MonotonicContinuityUnproven)
       && (if status in COMPARED then own in {FirstObservation, MonotonicContinuityUnproven} else own == status)
  }

  function RawValue(samples: map<SampleKey, Sample>, r: RunId, t: WaitType, m: Metric): nat {
    if RawPresent(samples, r, t, m) then samples[TypeKey(r, t, m)].value.n else 0
  }

  function ReadRow(samples: map<SampleKey, Sample>, r: RunId, t: WaitType): Counters {
    Counters(RawValue(samples, r, t, TaskCount), RawValue(samples, r, t, WaitTime),
             RawValue(samples, r, t, MaxTime), RawValue(samples, r, t, SignalTime))
  }

  function ReadRows(samples: map<SampleKey, Sample>, r: RunId): map<WaitType, Counters> {
    map t | t in TypesOf(samples) :: ReadRow(samples, r, t)
  }

  function ActiveOf(rows: map<WaitType, Counters>): set<WaitType> {
    set t | t in rows && rows[t].Active()
  }

  predicate RawValid(db: Db, r: RunId, c: Context)
    requires r in db.runs
  {
    var samples := SamplesOfRun(db, r);
    var types := TypesOf(samples);
    var rows := ReadRows(samples, r);
    && |samples| == db.runs[r].sampleCount
    && (forall k | k in samples :: SampleShapeOk(k, samples[k], c))
    && |types| == c.written
    && (forall t | t in types :: RowOk(samples, r, t, c.status))
    && |set t | t in types && CandidateCount(samples, r, t) == 3| == c.comparable
    && |ActiveOf(rows)| <= c.active
    && (!c.limited ==> |ActiveOf(rows)| == c.active)
    && rows == c.rawProjection
  }

  // ---------- comparing and deciding ----------

  /** The predecessor as the comparison sees it.  `rows` is used only when both
    * validity flags hold. */
  datatype Previous =
    | NoPrevious
    | Previous(run: RunId, version: Option<int>, technicalPartial: bool,
               contextValid: bool, rawValid: bool,
               epoch: Option<Epoch>, engine: Engine, end: int, rows: map<WaitType, Counters>)

  const NO_ENGINE := Engine("", 0, 0)

  function ReadPrevious(db: Db, below: RunId): (p: Previous)
    ensures p.NoPrevious? <==> LatestFinalized(db, below).None?
  {
    match LatestFinalized(db, below)
    case None => NoPrevious
    case Some(r) =>
      var row := db.runs[r];
      var text := StoredText(db, r);
      var bad := row.status !in {Available, PartialResult} || row.error.Some?;
      if text.Some? && text.value.ContextText? && ContextValid(db, r, text.value.context) then
        var c := text.value.context;
        Previous(r, StoredVersion(text), bad || c.limited || c.native == 0,
                 !bad, !bad && RawValid(db, r, c),
                 row.epoch, c.engine, c.end, ReadRows(SamplesOfRun(db, r), r))
      else
        Previous(r, StoredVersion(text), bad, false, false, row.epoch, NO_ENGINE, 0, map[])
  }

  /** Types whose scope still carries some sample of the predecessor. */
  function HintedTypes(db: Db, p: Previous): set<WaitType> {
    if p.NoPrevious? || ServerScope !in db.scopes then {}
    else set t | t in TypesOf(SamplesOfRun(db, p.run)) && WaitTypeScope(t) in db.scopes
  }

  predicate EngineChanged(p: Previous, s: Source) {
    p.Previous? && p.contextValid && s.engine != Some(p.engine)
  }

  predicate IntervalInvalid(p: Previous, start: int, end: int) {
    p.Previous? && p.contextValid && (start < p.end || end <= p.end)
  }

  predicate TypeMissing(p: Previous, waits: map<WaitType, Counters>) {
    p.Previous? && p.contextValid && p.rawValid && !(p.rows.Keys <= waits.Keys)
  }

  predicate Decreased(p: Previous, s: Source, waits: map<WaitType, Counters>) {
    && p.Previous? && p.contextValid && p.rawValid && !EngineChanged(p, s)
    && exists t | t in p.rows :: t in waits && !waits[t].AtLeast(p.rows[t])
  }

  function Restrict(m: map<WaitType, Counters>, keys: set<WaitType>): map<WaitType, Counters> {
    map t | t in m && t in keys :: m[t]
  }

  function Select(waits: map<WaitType, Counters>, hints: set<WaitType>, maxRows: int): map<WaitType, Counters>
    requires maxRows >= 0
  {
    Restrict(waits, Lowest(Eligible(waits, hints), maxRows))
  }

  function Eligible(waits: map<WaitType, Counters>, hints: set<WaitType>): set<WaitType> {
    set t | t in waits && (waits[t].Active() || t in hints)
  }

  function StatusFor(p: Previous, s: Source, start: int, end: int, waits: map<WaitType, Counters>,
                     limited: bool, common: set<WaitType>): Comparison {
    if s.waits == [] then SourceEmptyUnproven
    else if limited then WriteLimited
    else if p.NoPrevious? then FirstObservation
    else if p.technicalPartial then PreviousCapturePartial
    else if !p.contextValid then PreviousContextInvalid
    else if !p.rawValid then PreviousRawIncomplete
    else if EngineChanged(p, s) then EngineContextChanged
    else if IntervalInvalid(p, start, end) then IntervalNotPositive
    else if TypeMissing(p, waits) then WaitTypeMissing
    else if Decreased(p, s, waits) then CounterDecrease
    else if common == {} then NoComparableTypes
    else MonotonicContinuityUnproven
  }

  function DecisionFor(p: Previous, s: Source, waits: map<WaitType, Counters>, status: Comparison): EpochDecision {
    if p.NoPrevious? then NewFirst
    else if p.contextValid && EngineChanged(p, s) then NewEngineContext
    else if p.contextValid && p.rawValid && Decreased(p, s, waits) then NewCounterDecrease
    else if status in {SourceEmptyUnproven, WriteLimited, PreviousCapturePartial, PreviousContextInvalid,
                       PreviousRawIncomplete, IntervalNotPositive, WaitTypeMissing} then NewComparisonBreak
    else RetainContext
  }

  function PreviousRows(p: Previous): map<WaitType, Counters> {
    if p.Previous? then p.rows else map[]
  }

  /** Compares the selected rows with the predecessor and chooses the epoch. */
  function Compare(p: Previous, r: RunId, started: int, s: Source, waits: map<WaitType, Counters>,
                   rows: map<WaitType, Counters>, eligible: nat, newId: Epoch, finished: int): (c: Capture)
    requires s.engine.Some? && s.start.Some? && s.end.Some?
    ensures c.base.Keys <= c.rows.Keys
  {
    var status := StatusFor(p, s, s.start.value, s.end.value, waits, |rows| < eligible,
                            rows.Keys * PreviousRows(p).Keys);
    var decision := DecisionFor(p, s, waits, status);
    Capture(r, started, finished,
            if p.Previous? then Some(p.run) else None, if p.Previous? then p.version else None,
            if decision == RetainContext && p.Previous? && p.epoch.Some? then p.epoch.value else newId,
            s.engine.value, s.start.value, s.end.value,
            |s.waits|, |ActiveOf(waits)|, eligible, rows,
            if status == MonotonicContinuityUnproven then Restrict(PreviousRows(p), rows.Keys) else map[],
            status, decision)
  }

  /** The capture a complete source produces for run `r`. */
  function Analyse(db: Db, r: RunId, started: int, policy: Policy, s: Source, newId: Epoch, clock: Clock): (c: Capture)
    requires PolicyOk(policy) && s.complete && SourceOk(s, started, clock.checked)
    ensures c.base.Keys <= c.rows.Keys
  {
    var p := ReadPrevious(db, r);
    var waits := RowMap(s.waits);
    var hints := HintedTypes(db, p);
    Compare(p, r, started, s, waits, Select(waits, hints, policy.maxRows), |Eligible(waits, hints)|,
            newId, clock.finished)
  }

  // ---------- the completion procedure as a state transformer ----------

  datatype Outcome =
    | NotOwnRun
    | Captured(capture: Capture)
    | WithoutMetrics
    | Closed(error: int)
    | Unconfirmed(error: int)
    | Refused(error: int)

  datatype Stage = BeforeOwnRun | BeforeChecks | BeforeCommit

  /** The statements of one completion that fail, by a lock time-out, a missing
    * permission or anything else: `error` is raised at `stage`, if any, and
    * `closingFails` says that the closing of the failed run fails as well. */
  datatype Failure = Failure(stage: Option<Stage>, error: int, closingFails: bool)

  /** An unwritten running Wait run. */
  predicate OwnOpenRun(db: Db, r: RunId) {
    && r in db.runs
    && db.runs[r].collector == WaitStats && db.runs[r].ended.None? && db.runs[r].status == Running
    && db.runs[r].epoch.None? && db.runs[r].sampleCount == 0 && db.runs[r].payloadCount == 0
    && !HasChildren(db, r)
  }

  /** A new epoch must be a real identifier other than the predecessor's. */
  predicate EpochOk(db: Db, c: Capture) {
    && c.epoch != 0
    && (c.decision != RetainContext && c.previous.Some? && c.previous.value in db.runs
        ==> db.runs[c.previous.value].epoch != Some(c.epoch))
  }

  function AddPayload(db: Db, r: RunId, at: int, enabled: bool): Db {
    if enabled then db.(payloads := db.payloads[db.nextPayload := Payload(r, at)], nextPayload := db.nextPayload + 1)
    else db
  }

  function Insert(db: Db, c: Capture, payloadEnabled: bool): Db
    requires c.base.Keys <= c.rows.Keys
  {
    AddPayload(db, c.run, c.end, payloadEnabled).(
      runs := db.runs[c.run := RunOf(c, if payloadEnabled then 1 else 0)],
      samples := db.samples + SamplesOf(c),
      modules := db.modules[ModuleKey(c.run, WaitSource) := Available]
                 [ModuleKey(c.run, WaitCompletion) := PartialResult],
      scopes := db.scopes + ScopesOf(c))
  }

  function SourceFailure(s: SourceStatus): RunStatus {
    match s
    case SourceDenied => DeniedPermission
    case SourceMissing => UnavailableObject
    case _ => ErrorHandled
  }

  function FinishWithoutMetrics(db: Db, r: RunId, s: Source, payloadEnabled: bool, at: int): Db
    requires r in db.runs
  {
    AddPayload(db, r, at, payloadEnabled).(
      runs := db.runs[r := db.runs[r].(ended := Some(at), status := SourceFailure(s.status), error := s.error,
                                       epoch := None, sampleCount := 0,
                                       payloadCount := if payloadEnabled then 1 else 0)],
      modules := db.modules[ModuleKey(r, WaitSource) := SourceFailure(s.status)])
  }

  function FailureStatus(error: int): RunStatus {
    if error in {229, 262, 297, 300, 371} then DeniedPermission
    else if error in {53761, 53762, 53764, 2812, 8144, 8145} then TargetUnavailable
    else ErrorHandled
  }

  /** The handler: the rolled-back run is closed with its error, unless that
    * fails too or the clock would put its end before its start. */
  function CloseFailed(db: Db, r: RunId, error: int, at: int, fails: bool): (Db, Outcome)
    requires r in db.runs
  {
    if fails || at < db.runs[r].started then (db, Unconfirmed(error))
    else
      (db.(runs := db.runs[r := db.runs[r].(ended := Some(at), status := FailureStatus(error), error := Some(error))],
           modules := db.modules[ModuleKey(r, WaitCompletion) := FailureStatus(error)]),
       Closed(error))
  }

  const CONTRACT_ERROR := 53763
  const INTERNAL_ERROR := 53766
  const CHECK_VIOLATION := 547

  /** What a failed source leads to; its writes are undone if the commit fails. */
  function CompleteWithoutMetrics(db: Db, r: RunId, payloadEnabled: bool, s: Source, clock: Clock, f: Failure)
    : (Db, Outcome)
    requires r in db.runs
  {
    if clock.finished < db.runs[r].started then CloseFailed(db, r, CHECK_VIOLATION, clock.closing, f.closingFails)
    else if f.stage.Some? then CloseFailed(db, r, f.error, clock.closing, f.closingFails)
    else (FinishWithoutMetrics(db, r, s, payloadEnabled, clock.finished), WithoutMetrics)
  }

  /** What storing a capture leads to; its writes are undone if the commit fails. */
  function CompleteCapture(db: Db, c: Capture, payloadEnabled: bool, clock: Clock, f: Failure): (Db, Outcome)
    requires c.run in db.runs && c.base.Keys <= c.rows.Keys
  {
    if !EpochOk(db, c) || clock.finished < c.end || clock.finished < db.runs[c.run].started then
      CloseFailed(db, c.run, INTERNAL_ERROR, clock.closing, f.closingFails)
    else if f.stage.Some? then CloseFailed(db, c.run, f.error, clock.closing, f.closingFails)
    else (Insert(db, c, payloadEnabled), Captured(c))
  }

  function Complete(db: Db, r: RunId, policy: Policy, s: Source, newId: Epoch, clock: Clock, f: Failure)
    : (Db, Outcome)
  {
    if f.stage == Some(BeforeOwnRun) then (db, Refused(f.error))
    else if !OwnOpenRun(db, r) then (db, NotOwnRun)
    else
      var started := db.runs[r].started;
      if f.stage == Some(BeforeChecks) then CloseFailed(db, r, f.error, clock.closing, f.closingFails)
      else if !PolicyOk(policy) || !SourceOk(s, started, clock.checked) then
        CloseFailed(db, r, CONTRACT_ERROR, clock.closing, f.closingFails)
      else if !s.complete then CompleteWithoutMetrics(db, r, policy.payloadEnabled, s, clock, f)
      else CompleteCapture(db, Analyse(db, r, started, policy, s, newId, clock), policy.payloadEnabled, clock, f)
  }
}
