/** The tables of the snapshot database that Wait captures and purges touch.
  *
  * A row is identified by its declared unique key: a scope by its type and
  * identity, a sample by (run, scope, metric).  A wait type is represented by
  * the rank of its name in the binary collation, a time by an integer, an epoch
  * by a number whose zero is the all-zero GUID.
  */
module SnapshotTables {
  import opened Common

  type RunId = nat
  type Epoch = nat
  type WaitType = nat

  datatype Collector = WaitStats | PerformanceCounters

  datatype RunStatus =
    | Running | Available | PartialResult
    | SkippedNotDue | StoppedSizeBudget | Disabled
    | DeniedPermission | UnavailableObject | TargetUnavailable | ErrorHandled

  datatype Run = Run(
    collector: Collector, started: int, ended: Option<int>, status: RunStatus,
    error: Option<int>, epoch: Option<Epoch>, sampleCount: nat, payloadCount: nat)

  datatype Scope =
    | ServerScope
    | WaitTypeScope(waitType: WaitType)
    | OtherScope(identity: nat, above: Option<Scope>)
  {
    function Parent(): Option<Scope> {
      match this
      case ServerScope => None
      case WaitTypeScope(_) => Some(ServerScope)
      case OtherScope(_, above) => above
    }
  }

  datatype Metric =
    | TaskCount | WaitTime | MaxTime | SignalTime
    | TaskDelta | TimeDelta | SignalDelta
    | DeltaStatus | CaptureContext
    | OtherMetric(code: nat)
  {
    predicate IsRaw() {
      TaskCount? || WaitTime? || MaxTime? || SignalTime?
    }

    predicate IsDelta() {
      TaskDelta? || TimeDelta? || SignalDelta?
    }
  }

  const RAW_METRICS: set<Metric> := {TaskCount, WaitTime, MaxTime, SignalTime}
  const DELTA_METRICS: set<Metric> := {TaskDelta, TimeDelta, SignalDelta}

  datatype Comparison =
    | SourceEmptyUnproven | WriteLimited | FirstObservation
    | PreviousCapturePartial | PreviousContextInvalid | PreviousRawIncomplete
    | EngineContextChanged | IntervalNotPositive | WaitTypeMissing
    | CounterDecrease | NoComparableTypes | MonotonicContinuityUnproven

  datatype EpochDecision =
    | NewFirst | NewEngineContext | NewCounterDecrease | NewComparisonBreak | RetainContext

  datatype Engine = Engine(serverName: string, startLocal: int, startTicks: nat)

  datatype Counters = Counters(tasks: nat, waitTime: nat, maxTime: nat, signalTime: nat) {
    predicate Active() {
      tasks > 0 || waitTime > 0 || maxTime > 0 || signalTime > 0
    }

    predicate AtLeast(other: Counters) {
      tasks >= other.tasks && waitTime >= other.waitTime &&
      maxTime >= other.maxTime && signalTime >= other.signalTime
    }

    function Raw(m: Metric): nat
      requires m.IsRaw()
    {
      match m
      case TaskCount => tasks
      case WaitTime => waitTime
      case MaxTime => maxTime
      case SignalTime => signalTime
    }
  }

  /** The 25 fields of the stored capture context.  `rawProjection` stands for
    * the hash of the sorted raw rows: equal hashes mean equal projections. */
  datatype Context = Context(
    schemaVersion: int, run: RunId, epoch: Epoch, engine: Engine, start: int, end: int,
    native: nat, active: nat, eligible: nat, written: nat, limited: bool,
    rawCount: nat, rawProjection: map<WaitType, Counters>,
    previousRun: Option<RunId>, previousVersion: Option<int>,
    status: Comparison, comparable: nat, candidates: nat, decision: EpochDecision)

  /** A stored string: a parsed context, a comparison status, or any other text,
    * from which at most a schema version can be read. */
  datatype Text =
    | ContextText(context: Context)
    | StatusText(status: Comparison)
    | OtherText(schemaVersion: Option<int>)

  datatype Value = Bigint(n: int) | Str(text: Text) | Numeric(hundredths: int)

  datatype Quality =
    | MeasuredCumulative | ContinuityUnproven | ComparisonStatus | CaptureContextV1 | OtherQuality

  datatype SampleKey = SampleKey(run: RunId, scope: Scope, metric: Metric)

  datatype Sample = Sample(collected: int, epoch: Epoch, value: Value, quality: Quality, partial: bool)

  datatype Module = WaitSource | WaitCompletion | OtherModule(name: nat)

  datatype ModuleKey = ModuleKey(run: RunId, name: Module)

  datatype Payload = Payload(run: RunId, captured: int)

  datatype Db = Db(
    runs: map<RunId, Run>,
    samples: map<SampleKey, Sample>,
    payloads: map<nat, Payload>,
    modules: map<ModuleKey, RunStatus>,
    scopes: set<Scope>,
    nextRun: RunId,
    nextPayload: nat)

  /** The declared foreign keys, and identity columns that never repeat. */
  ghost predicate Consistent(db: Db) {
    && (forall k | k in db.samples :: k.run in db.runs && k.scope in db.scopes)
    && (forall p | p in db.payloads :: db.payloads[p].run in db.runs && p < db.nextPayload)
    && (forall k | k in db.modules :: k.run in db.runs)
    && (forall s | s in db.scopes :: s.Parent().Some? ==> s.Parent().value in db.scopes)
    && (forall r | r in db.runs :: 0 < r < db.nextRun)
    && 0 < db.nextRun
  }

  predicate FinalizedWait(db: Db, r: RunId) {
    r in db.runs && db.runs[r].collector == WaitStats && db.runs[r].ended.Some?
  }

  function SamplesOfRun(db: Db, r: RunId): map<SampleKey, Sample> {
    map k | k in db.samples && k.run == r :: db.samples[k]
  }

  predicate HasChildren(db: Db, r: RunId) {
    || (exists k | k in db.samples :: k.run == r)
    || (exists p | p in db.payloads :: db.payloads[p].run == r)
    || (exists k | k in db.modules :: k.run == r)
  }
}
