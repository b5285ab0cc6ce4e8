/** What the next capture of every history stores, and why. */
module SnapshotOutcome {
  import opened Common
  import opened SnapshotTables
  import opened SnapshotCapture
  import opened SnapshotAgreement
  import opened SnapshotDecision
  import opened SnapshotPurge
  import opened SnapshotStore
  import opened SnapshotHistory

  // ---------- the predecessor as the tables hold it ----------

  function Newest(log: seq<Entry>): Option<Entry> {
    if log == [] then None else Some(log[|log| - 1])
  }

  /** The capture of the newest run, if that run did not fail. */
  function Last(newest: Option<Entry>): Option<Capture> {
    match newest
    case Some(e) => e.capture
    case None => None
  }

  predicate ContextHeld(db: Db, last: Option<Capture>) {
    last.Some? && ContextKey(last.value.run) in db.samples
  }

  /** None of the samples the last capture stored was purged. */
  ghost predicate AllHeld(db: Db, last: Option<Capture>) {
    last.Some? && NothingRemoved(db, last.value)
  }

  /** A sample that the newest run stored for this type is still there. */
  ghost predicate StillStored(db: Db, newest: Option<Entry>, t: WaitType) {
    newest.Some? && exists k | k in db.samples :: k.run == newest.value.run && k.scope == WaitTypeScope(t)
  }

  /** The newest run, if any, is the one run `r` is compared with. */
  ghost predicate Precedes(db: Db, newest: Option<Entry>, r: RunId) {
    && Consistent(db)
    && match newest
       case None => LatestFinalized(db, r) == None
       case Some(e) => NewestHeld(db, e) && e.run in db.runs && db.runs[e.run] == e.row
                       && LatestFinalized(db, r) == Some(e.run)
  }

  lemma HeldPrecedes(db: Db, e: Entry, r: RunId)
    ensures Consistent(db) && NewestHeld(db, e) && e.run in db.runs && db.runs[e.run] == e.row
            && LatestFinalized(db, r) == Some(e.run)
        ==> Precedes(db, Some(e), r)
  {
  }

  lemma NewestFacts(h: History, e: Entry)
    ensures Inv(h) && h.log != [] && e == h.log[|h.log| - 1] ==>
            Consistent(h.db) && NewestHeld(h.db, e) && e.run in h.db.runs && h.db.runs[e.run] == e.row
  {
    if Inv(h) && h.log != [] && e == h.log[|h.log| - 1] {
      NewestIsHeld(h);
      assert EntryHeld(h.db, h.log[|h.log| - 1]);
    }
  }

  lemma NewestPrecedes(h: History, e: Entry, r: RunId)
    ensures Inv(h) && h.log != [] && e == h.log[|h.log| - 1] && LatestFinalized(h.db, r) == Some(e.run)
        ==> Precedes(h.db, Some(e), r)
  {
    NewestFacts(h, e);
    HeldPrecedes(h.db, e, r);
  }

  lemma NothingPrecedes(h: History, r: RunId)
    ensures Inv(h) && LatestFinalized(h.db, r) == None ==> Precedes(h.db, None, r)
  {
  }

  lemma InvPrecedes(h: History, newest: Option<Entry>, r: RunId)
    ensures Inv(h) && newest == Newest(h.log)
            && LatestFinalized(h.db, r) == (if newest.Some? then Some(newest.value.run) else None)
        ==> Precedes(h.db, newest, r)
  {
    match newest
    case None => NothingPrecedes(h, r);
    case Some(e) => NewestPrecedes(h, e, r);
  }

  lemma ReachablePrecedes(h: History, r: RunId)
    ensures Reachable(h) && OlderFinalized(h.db, r) ==> Precedes(h.db, Newest(h.log), r)
  {
    if Reachable(h) && OlderFinalized(h.db, r) {
      ReachableInv(h);
      PredecessorIsNewest(h, r);
      InvPrecedes(h, Newest(h.log), r);
    }
  }

  // ---------- reading a predecessor of which samples were purged ----------

  function ContextKeys(db: Db, r: RunId): set<SampleKey> {
    set k | k in db.samples && k.run == r && k.metric == CaptureContext
  }

  lemma OnlyContextKey(db: Db, c: Capture, k: SampleKey)
    requires Remains(db, c) && k in ContextKeys(db, c.run)
    ensures k == ContextKey(c.run)
  {
    assert Stores(c, k);
  }

  lemma HeldContextKeys(db: Db, c: Capture)
    requires Remains(db, c)
    ensures ContextKeys(db, c.run) == if ContextKey(c.run) in db.samples then {ContextKey(c.run)} else {}
  {
    forall k | k in ContextKeys(db, c.run) ensures k == ContextKey(c.run) {
      OnlyContextKey(db, c, k);
    }
  }

  lemma HeldContextText(db: Db, c: Capture)
    requires Remains(db, c) && ContextKey(c.run) in db.samples
    ensures db.samples[ContextKey(c.run)].value == Str(ContextText(ContextOf(c)))
  {
  }

  lemma TextOfKeys(db: Db, r: RunId, key: SampleKey)
    ensures ContextKeys(db, r) == {} ==> StoredText(db, r) == None
    ensures ContextKeys(db, r) == {key} && key in db.samples && db.samples[key].value.Str? ==>
      StoredText(db, r) == Some(db.samples[key].value.text)
  {
  }

  lemma ContextAlone(db: Db, c: Capture)
    requires Remains(db, c)
    ensures StoredText(db, c.run) ==
      if ContextKey(c.run) in db.samples then Some(ContextText(ContextOf(c))) else None
  {
    HeldContextKeys(db, c);
    TextOfKeys(db, c.run, ContextKey(c.run));
    if ContextKey(c.run) in db.samples {
      HeldContextText(db, c);
    }
  }

  lemma HeldContextIdentity(db: Db, c: Capture)
    requires CaptureOk(c) && Remains(db, c) && ContextKey(c.run) in db.samples
    ensures ContextIdentityOk(db, c.run, ContextOf(c))
  {
    assert db.samples[ContextKey(c.run)] == SampleAt(c, ContextKey(c.run));
  }

  lemma HeldContextCounts(db: Db, c: Capture)
    requires CaptureOk(c) && Remains(db, c)
    ensures ContextCountsOk(ContextOf(c), db.runs[c.run].sampleCount)
  {
    assert db.runs[c.run].sampleCount == |SamplesOf(c)|;
    SampleQuantity(c);
  }

  lemma HeldContextValid(db: Db, c: Capture)
    requires CaptureOk(c) && Remains(db, c) && ContextKey(c.run) in db.samples
    ensures ContextValid(db, c.run, ContextOf(c))
  {
    HeldContextIdentity(db, c);
    HeldContextCounts(db, c);
    BoundsAccepted(c);
  }

  predicate Incomplete(c: Capture) {
    |c.rows| < c.eligible || c.native == 0
  }

  /** What the procedure reads of the newest run. */
  ghost predicate ReadAs(p: Previous, db: Db, newest: Option<Entry>) {
    var last := Last(newest);
    match newest
    case None => p.NoPrevious?
    case Some(e) =>
      && p.Previous? && p.run == e.run && p.epoch == e.row.epoch
      && p.contextValid == ContextHeld(db, last) && p.rawValid == AllHeld(db, last)
      && p.version == (if ContextHeld(db, last) then Some(1) else None)
      && p.technicalPartial == (last.None? || (ContextHeld(db, last) && Incomplete(last.value)))
      && (ContextHeld(db, last) ==> p.engine == last.value.engine && p.end == last.value.end)
      && (AllHeld(db, last) ==> ContextHeld(db, last) && p.rows == last.value.rows)
  }

  lemma FailedRead(db: Db, e: Entry, r: RunId)
    requires FailedRow(db, e) && LatestFinalized(db, r) == Some(e.run) && e.run in db.runs && db.runs[e.run] == e.row
    ensures ReadAs(ReadPrevious(db, r), db, Some(e))
  {
    assert (set k | k in db.samples && k.run == e.run && k.metric == CaptureContext) == {};
  }

  lemma ContextRead(db: Db, c: Capture, r: RunId)
    requires CaptureOk(c) && Remains(db, c) && LatestFinalized(db, r) == Some(c.run)
    ensures var p, held := ReadPrevious(db, r), ContextKey(c.run) in db.samples;
      && p.Previous? && p.contextValid == held && p.version == (if held then Some(1) else None)
      && p.technicalPartial == (held && Incomplete(c))
      && (held ==> p.engine == c.engine && p.end == c.end)
  {
    ContextAlone(db, c);
    if ContextKey(c.run) in db.samples {
      HeldContextValid(db, c);
    }
  }

  lemma PredecessorRead(db: Db, newest: Option<Entry>, r: RunId)
    requires Precedes(db, newest, r)
    ensures ReadAs(ReadPrevious(db, r), db, newest)
  {
    if newest.Some? {
      var e := newest.value;
      if e.capture.Some? {
        ContextRead(db, e.capture.value, r);
        PredecessorTrusted(db, r, e.capture.value);
        assert NothingRemoved(db, e.capture.value) ==> ContextKey(e.run) in db.samples by {
          assert Stores(e.capture.value, ContextKey(e.run));
        }
      } else {
        FailedRead(db, e, r);
      }
    }
  }

  // ---------- the types a capture wants ----------

  /** A row with a counter above zero, or of a type the newest run still shows. */
  ghost predicate WantedRow(db: Db, newest: Option<Entry>, w: WaitRow) {
    || w.counters.tasks > 0 || w.counters.waitTime > 0 || w.counters.maxTime > 0 || w.counters.signalTime > 0
    || StillStored(db, newest, w.waitType)
  }

  ghost function Wanted(db: Db, newest: Option<Entry>, waits: seq<WaitRow>): set<WaitType> {
    set i | 0 <= i < |waits| && WantedRow(db, newest, waits[i]) :: waits[i].waitType
  }

  lemma {:induction false} RowMapValues(rows: seq<WaitRow>, i: nat)
    requires DistinctTypes(rows) && i < |rows|
    ensures rows[i].waitType in RowMap(rows) && RowMap(rows)[rows[i].waitType] == rows[i].counters
  {
    if i > 0 {
      RowMapValues(rows[1..], i - 1);
    }
  }

  lemma StillStoredKey(db: Db, newest: Option<Entry>, t: WaitType)
    requires newest.Some? && NewestHeld(db, newest.value)
    ensures StillStored(db, newest, t) == (t in TypesOf(SamplesOfRun(db, newest.value.run)))
  {
    var e := newest.value;
    if k :| k in db.samples && k.run == e.run && k.scope == WaitTypeScope(t) {
      assert k in SamplesOfRun(db, e.run);
      assert e.capture.Some? && Stores(e.capture.value, k);
    }
  }

  ghost predicate Names(p: Previous, newest: Option<Entry>) {
    if newest.Some? then p.Previous? && p.run == newest.value.run else p.NoPrevious?
  }

  lemma HintsAreStored(db: Db, newest: Option<Entry>, p: Previous, t: WaitType)
    requires Consistent(db) && Names(p, newest) && (newest.Some? ==> NewestHeld(db, newest.value))
    ensures (t in HintedTypes(db, p)) == StillStored(db, newest, t)
  {
    if newest.Some? {
      StillStoredKey(db, newest, t);
      if k :| k in db.samples && k.run == newest.value.run && k.scope == WaitTypeScope(t) {
        assert WaitTypeScope(t) in db.scopes && WaitTypeScope(t).Parent() == Some(ServerScope);
      }
    }
  }

  lemma EligibleIsWanted(db: Db, newest: Option<Entry>, p: Previous, waits: seq<WaitRow>)
    requires Consistent(db) && Names(p, newest) && (newest.Some? ==> NewestHeld(db, newest.value))
    requires DistinctTypes(waits)
    ensures Eligible(RowMap(waits), HintedTypes(db, p)) == Wanted(db, newest, waits)
  {
    var hints := HintedTypes(db, p);
    forall i | 0 <= i < |waits|
      ensures WantedRow(db, newest, waits[i]) == (waits[i].waitType in Eligible(RowMap(waits), hints))
    {
      RowMapValues(waits, i);
      HintsAreStored(db, newest, p, waits[i].waitType);
    }
  }

  // ---------- why a comparison status is stored ----------

  /** The order in which the causes are examined. */
  function Rank(status: Comparison): nat {
    match status
    case SourceEmptyUnproven => 0
    case WriteLimited => 1
    case FirstObservation => 2
    case PreviousCapturePartial => 3
    case PreviousContextInvalid => 4
    case PreviousRawIncomplete => 5
    case EngineContextChanged => 6
    case IntervalNotPositive => 7
    case WaitTypeMissing => 8
    case CounterDecrease => 9
    case NoComparableTypes => 10
    case MonotonicContinuityUnproven => 11
  }

  predicate Shown(waits: seq<WaitRow>, t: WaitType) {
    exists i | 0 <= i < |waits| :: waits[i].waitType == t
  }

  /** A counter of the row that is compared is below its former value. */
  predicate Fallen(before: map<WaitType, Counters>, w: WaitRow) {
    && w.waitType in before
    && var b := before[w.waitType];
       || w.counters.tasks < b.tasks || w.counters.waitTime < b.waitTime
       || w.counters.maxTime < b.maxTime || w.counters.signalTime < b.signalTime
  }

  predicate SomeFallen(before: map<WaitType, Counters>, waits: seq<WaitRow>) {
    exists i | 0 <= i < |waits| :: Fallen(before, waits[i])
  }

  /** What each status reports, were no other cause examined before it. */
  ghost predicate Cause(status: Comparison, db: Db, newest: Option<Entry>, maxRows: int, s: Source) {
    var last := Last(newest);
    match status
    case SourceEmptyUnproven => s.waits == []
    case WriteLimited => |Wanted(db, newest, s.waits)| > maxRows
    case FirstObservation => newest.None?
    case PreviousCapturePartial =>
      newest.Some? && (last.None? || (ContextHeld(db, last) && (|last.value.rows| < last.value.eligible
                                                                || last.value.native == 0)))
    case PreviousContextInvalid => last.Some? && !ContextHeld(db, last)
    case PreviousRawIncomplete => last.Some? && !AllHeld(db, last)
    case EngineContextChanged => last.Some? && s.engine != Some(last.value.engine)
    case IntervalNotPositive =>
      last.Some? && s.start.Some? && s.end.Some? && (s.start.value < last.value.end || s.end.value <= last.value.end)
    case WaitTypeMissing => last.Some? && exists t | t in last.value.rows :: !Shown(s.waits, t)
    case CounterDecrease => last.Some? && SomeFallen(last.value.rows, s.waits)
    case NoComparableTypes => last.Some? && last.value.rows == map[]
    case MonotonicContinuityUnproven => true
  }

  ghost function Causes(db: Db, newest: Option<Entry>, maxRows: int, s: Source): Comparison -> bool {
    status => Cause(status, db, newest, maxRows, s)
  }

  /** `status` is the first one in order whose cause is given. */
  ghost predicate FirstOf(cause: Comparison -> bool, status: Comparison) {
    cause(status) && forall e | Rank(e) < Rank(status) :: !cause(e)
  }

  lemma OneFirst(cause: Comparison -> bool, a: Comparison, b: Comparison)
    requires FirstOf(cause, a) && FirstOf(cause, b)
    ensures a == b
  {
    assert !(Rank(a) < Rank(b)) && !(Rank(b) < Rank(a));
  }

  /** Each cause as the procedure examines it, once those before it are ruled out. */
  ghost predicate CausesRead(cause: Comparison -> bool, p: Previous, s: Source, start: int, end: int,
                             waits: map<WaitType, Counters>, limited: bool, common: set<WaitType>) {
    && cause(SourceEmptyUnproven) == (s.waits == [])
    && cause(WriteLimited) == limited
    && cause(FirstObservation) == p.NoPrevious?
    && (p.Previous? ==>
          && cause(PreviousCapturePartial) == p.technicalPartial
          && (!p.technicalPartial ==> cause(PreviousContextInvalid) == !p.contextValid)
          && (!p.technicalPartial && p.contextValid ==> cause(PreviousRawIncomplete) == !p.rawValid)
          && (!p.technicalPartial && p.rawValid ==>
                && cause(EngineContextChanged) == EngineChanged(p, s)
                && cause(IntervalNotPositive) == IntervalInvalid(p, start, end)
                && cause(WaitTypeMissing) == TypeMissing(p, waits)
                && (!EngineChanged(p, s) ==> cause(CounterDecrease) == Decreased(p, s, waits))
                && (!limited && !TypeMissing(p, waits) ==> cause(NoComparableTypes) == (common == {}))))
    && cause(MonotonicContinuityUnproven)
  }

  lemma StatusIsFirst(cause: Comparison -> bool, p: Previous, s: Source, start: int, end: int,
                      waits: map<WaitType, Counters>, limited: bool, common: set<WaitType>)
    requires CausesRead(cause, p, s, start, end, waits, limited, common)
    requires p.Previous? && p.rawValid ==> p.contextValid
    ensures FirstOf(cause, StatusFor(p, s, start, end, waits, limited, common))
  {
  }

  lemma ShownInMap(waits: seq<WaitRow>, t: WaitType)
    ensures Shown(waits, t) == (t in RowMap(waits))
  {
  }

  lemma MissingRead(p: Previous, c: Capture, waits: seq<WaitRow>)
    requires p.Previous? && p.contextValid && p.rawValid && p.rows == c.rows
    ensures TypeMissing(p, RowMap(waits)) == exists t | t in c.rows :: !Shown(waits, t)
  {
    forall t ensures Shown(waits, t) == (t in RowMap(waits)) { ShownInMap(waits, t); }
  }

  lemma FallenRead(p: Previous, c: Capture, s: Source)
    requires p.Previous? && p.contextValid && p.rawValid && p.rows == c.rows && !EngineChanged(p, s)
    requires DistinctTypes(s.waits)
    ensures Decreased(p, s, RowMap(s.waits)) == SomeFallen(c.rows, s.waits)
  {
    var waits := RowMap(s.waits);
    forall i | 0 <= i < |s.waits|
      ensures s.waits[i].waitType in waits && waits[s.waits[i].waitType] == s.waits[i].counters
    {
      RowMapValues(s.waits, i);
    }
    if t :| t in p.rows && t in waits && !waits[t].AtLeast(p.rows[t]) {
      var i :| 0 <= i < |s.waits| && s.waits[i].waitType == t;
      assert Fallen(c.rows, s.waits[i]);
    }
  }

  lemma CommonRead(p: Previous, c: Capture, waits: map<WaitType, Counters>, hints: set<WaitType>,
                   rows: map<WaitType, Counters>)
    requires p.Previous? && p.contextValid && p.rawValid && p.rows == c.rows && !TypeMissing(p, waits)
    requires c.rows.Keys <= hints && rows.Keys == Eligible(waits, hints)
    ensures (rows.Keys * PreviousRows(p).Keys == {}) == (c.rows == map[])
  {
    assert rows.Keys * c.rows.Keys == c.rows.Keys;
    assert c.rows.Keys == {} <==> c.rows == map[];
  }

  lemma HeldTypesHinted(db: Db, newest: Option<Entry>, p: Previous)
    requires Consistent(db) && Names(p, newest) && newest.Some? && NewestHeld(db, newest.value)
    requires AllHeld(db, newest.value.capture)
    ensures newest.value.capture.value.rows.Keys <= HintedTypes(db, p)
  {
    NothingRemovedIsUntouched(db, newest.value.capture.value);
    HintsCover(db, newest.value.capture.value, p);
  }

  /** The source and policy of one capture, with what they select. */
  ghost predicate Selecting(db: Db, newest: Option<Entry>, p: Previous, policy: Policy, s: Source,
                            rows: map<WaitType, Counters>, limited: bool) {
    && PolicyOk(policy) && DistinctTypes(s.waits)
    && SelectedFrom(RowMap(s.waits), Eligible(RowMap(s.waits), HintedTypes(db, p)), rows, policy.maxRows)
    && limited == (|rows| < |Eligible(RowMap(s.waits), HintedTypes(db, p))|)
  }

  lemma LimitRead(db: Db, newest: Option<Entry>, p: Previous, policy: Policy, s: Source,
                  rows: map<WaitType, Counters>, limited: bool)
    requires Consistent(db) && Names(p, newest) && (newest.Some? ==> NewestHeld(db, newest.value))
    requires Selecting(db, newest, p, policy, s, rows, limited)
    ensures limited == (|Wanted(db, newest, s.waits)| > policy.maxRows)
  {
    EligibleIsWanted(db, newest, p, s.waits);
  }

  lemma EarlyCauses(db: Db, newest: Option<Entry>, p: Previous, maxRows: int, s: Source)
    requires ReadAs(p, db, newest) && s.start.Some? && s.end.Some?
    ensures EarlyCausesRead(Causes(db, newest, maxRows, s), p, s)
  {
  }

  ghost predicate EarlyCausesRead(cause: Comparison -> bool, p: Previous, s: Source)
    requires s.start.Some? && s.end.Some?
  {
    && cause(FirstObservation) == p.NoPrevious?
    && (p.Previous? ==> cause(PreviousCapturePartial) == p.technicalPartial)
    && (p.Previous? && !p.technicalPartial ==> cause(PreviousContextInvalid) == !p.contextValid)
    && (p.Previous? && !p.technicalPartial && p.contextValid ==> cause(PreviousRawIncomplete) == !p.rawValid)
    && (p.Previous? && p.contextValid ==> cause(EngineContextChanged) == EngineChanged(p, s))
    && (p.Previous? && p.contextValid ==>
          cause(IntervalNotPositive) == IntervalInvalid(p, s.start.value, s.end.value))
  }

  ghost predicate LateCausesRead(cause: Comparison -> bool, p: Previous, s: Source, waits: map<WaitType, Counters>,
                                 limited: bool, common: set<WaitType>) {
    && cause(WaitTypeMissing) == TypeMissing(p, waits)
    && (!EngineChanged(p, s) ==> cause(CounterDecrease) == Decreased(p, s, waits))
    && (!limited && !TypeMissing(p, waits) ==> cause(NoComparableTypes) == (common == {}))
  }

  /** The last causes in terms of a trusted predecessor `c`. */
  ghost predicate LateOn(cause: Comparison -> bool, c: Capture, waits: seq<WaitRow>) {
    && cause(WaitTypeMissing) == (exists t | t in c.rows :: !Shown(waits, t))
    && cause(CounterDecrease) == SomeFallen(c.rows, waits)
    && cause(NoComparableTypes) == (c.rows == map[])
  }

  lemma LateCausesOn(db: Db, newest: Option<Entry>, maxRows: int, s: Source)
    requires Last(newest).Some?
    ensures LateOn(Causes(db, newest, maxRows, s), Last(newest).value, s.waits)
  {
  }

  lemma LateCauses(cause: Comparison -> bool, p: Previous, c: Capture, s: Source, hints: set<WaitType>,
                   rows: map<WaitType, Counters>, limited: bool)
    requires p.Previous? && p.contextValid && p.rawValid && p.rows == c.rows && LateOn(cause, c, s.waits)
    requires DistinctTypes(s.waits) && c.rows.Keys <= hints
    requires !limited ==> rows.Keys == Eligible(RowMap(s.waits), hints)
    ensures LateCausesRead(cause, p, s, RowMap(s.waits), limited, rows.Keys * PreviousRows(p).Keys)
  {
    MissingRead(p, c, s.waits);
    if !EngineChanged(p, s) {
      FallenRead(p, c, s);
    }
    if !limited && !TypeMissing(p, RowMap(s.waits)) {
      CommonRead(p, c, RowMap(s.waits), hints, rows);
    }
  }

  lemma JoinCauses(cause: Comparison -> bool, p: Previous, s: Source, waits: map<WaitType, Counters>, limited: bool,
                   common: set<WaitType>)
    requires s.start.Some? && s.end.Some? && EarlyCausesRead(cause, p, s)
    requires cause(SourceEmptyUnproven) == (s.waits == []) && cause(WriteLimited) == limited
    requires p.Previous? && p.rawValid ==> p.contextValid && LateCausesRead(cause, p, s, waits, limited, common)
    requires cause(MonotonicContinuityUnproven)
    ensures CausesRead(cause, p, s, s.start.value, s.end.value, waits, limited, common)
  {
  }

  lemma HeldCauses(db: Db, newest: Option<Entry>, p: Previous, policy: Policy, s: Source,
                   rows: map<WaitType, Counters>, limited: bool)
    requires ReadAs(p, db, newest) && Consistent(db) && p.Previous? && p.rawValid && NewestHeld(db, newest.value)
    requires Selecting(db, newest, p, policy, s, rows, limited)
    ensures LateCausesRead(Causes(db, newest, policy.maxRows, s), p, s, RowMap(s.waits), limited,
                           rows.Keys * PreviousRows(p).Keys)
  {
    HeldTypesHinted(db, newest, p);
    LateCausesOn(db, newest, policy.maxRows, s);
    LateCauses(Causes(db, newest, policy.maxRows, s), p, Last(newest).value, s, HintedTypes(db, p), rows, limited);
  }

  lemma AllCausesRead(db: Db, newest: Option<Entry>, p: Previous, policy: Policy, s: Source,
                      rows: map<WaitType, Counters>, limited: bool)
    requires ReadAs(p, db, newest) && Consistent(db) && (newest.Some? ==> NewestHeld(db, newest.value))
    requires s.start.Some? && s.end.Some? && Selecting(db, newest, p, policy, s, rows, limited)
    ensures CausesRead(Causes(db, newest, policy.maxRows, s), p, s, s.start.value, s.end.value, RowMap(s.waits),
                       limited, rows.Keys * PreviousRows(p).Keys)
  {
    EarlyCauses(db, newest, p, policy.maxRows, s);
    LimitRead(db, newest, p, policy, s, rows, limited);
    FixedCauses(db, newest, policy.maxRows, s);
    if p.Previous? && p.rawValid {
      HeldCauses(db, newest, p, policy, s, rows, limited);
    }
    JoinCauses(Causes(db, newest, policy.maxRows, s), p, s, RowMap(s.waits), limited, rows.Keys * PreviousRows(p).Keys);
  }

  lemma FixedCauses(db: Db, newest: Option<Entry>, maxRows: int, s: Source)
    ensures var cause := Causes(db, newest, maxRows, s);
      && cause(SourceEmptyUnproven) == (s.waits == []) && cause(MonotonicContinuityUnproven)
      && cause(WriteLimited) == (|Wanted(db, newest, s.waits)| > maxRows)
  {
  }

  /** The status of the next capture is the first one whose cause is given. */
  lemma StatusOfNext(db: Db, newest: Option<Entry>, r: RunId, started: int, policy: Policy, s: Source, newId: Epoch,
                     clock: Clock)
    requires Precedes(db, newest, r)
    requires PolicyOk(policy) && s.complete && SourceOk(s, started, clock.checked)
    ensures FirstOf(Causes(db, newest, policy.maxRows, s), Analyse(db, r, started, policy, s, newId, clock).status)
  {
    var p, waits := ReadPrevious(db, r), RowMap(s.waits);
    var hints := HintedTypes(db, p);
    var rows := Select(waits, hints, policy.maxRows);
    var limited := |rows| < |Eligible(waits, hints)|;
    PredecessorRead(db, newest, r);
    SelectionFacts(waits, hints, policy.maxRows);
    AllCausesRead(db, newest, p, policy, s, rows, limited);
    StatusIsFirst(Causes(db, newest, policy.maxRows, s), p, s, s.start.value, s.end.value, waits, limited,
                  rows.Keys * PreviousRows(p).Keys);
  }

  // ---------- why an epoch decision is taken ----------

  /** What each decision reports. */
  ghost predicate DecisionGiven(d: EpochDecision, db: Db, newest: Option<Entry>, maxRows: int, s: Source) {
    var last := Last(newest);
    var otherEngine := ContextHeld(db, last) && s.engine != Some(last.value.engine);
    var fallen := AllHeld(db, last) && SomeFallen(last.value.rows, s.waits);
    var comparable := forall e | Rank(e) < Rank(NoComparableTypes) :: !Cause(e, db, newest, maxRows, s);
    match d
    case NewFirst => newest.None?
    case NewEngineContext => otherEngine
    case NewCounterDecrease => !otherEngine && fallen
    case RetainContext => comparable
    case NewComparisonBreak => newest.Some? && !otherEngine && !fallen && !comparable
  }

  /** The three grounds of a decision as the procedure reads them. */
  ghost predicate GroundsRead(p: Previous, db: Db, newest: Option<Entry>, s: Source) {
    var last := Last(newest);
    var otherEngine := ContextHeld(db, last) && s.engine != Some(last.value.engine);
    var fallen := AllHeld(db, last) && SomeFallen(last.value.rows, s.waits);
    && newest.None? == p.NoPrevious?
    && otherEngine == (p.Previous? && p.contextValid && EngineChanged(p, s))
    && (!otherEngine ==> fallen == (p.Previous? && p.contextValid && p.rawValid && Decreased(p, s, RowMap(s.waits))))
  }

  lemma GroundsAreRead(p: Previous, db: Db, newest: Option<Entry>, s: Source)
    requires ReadAs(p, db, newest) && DistinctTypes(s.waits)
    ensures GroundsRead(p, db, newest, s)
  {
    if p.Previous? && p.contextValid && p.rawValid && !EngineChanged(p, s) {
      FallenRead(p, Last(newest).value, s);
    }
  }

  lemma ComparableRank(cause: Comparison -> bool, status: Comparison)
    requires FirstOf(cause, status)
    ensures status in COMPARED <==> forall e | Rank(e) < Rank(NoComparableTypes) :: !cause(e)
  {
  }

  lemma ComparableExactly(db: Db, newest: Option<Entry>, maxRows: int, s: Source, status: Comparison)
    requires FirstOf(Causes(db, newest, maxRows, s), status)
    ensures status in COMPARED <==>
            forall e | Rank(e) < Rank(NoComparableTypes) :: !Cause(e, db, newest, maxRows, s)
  {
    var cause := Causes(db, newest, maxRows, s);
    ComparableRank(cause, status);
    assert forall e :: cause(e) == Cause(e, db, newest, maxRows, s);
  }

  lemma DecisionExactly(p: Previous, db: Db, newest: Option<Entry>, maxRows: int, s: Source,
                        waits: map<WaitType, Counters>, status: Comparison)
    requires GroundsRead(p, db, newest, s) && waits == RowMap(s.waits)
    requires FirstOf(Causes(db, newest, maxRows, s), status)
    requires var d := DecisionFor(p, s, waits, status);
      (d == RetainContext <==> status in COMPARED) && (d == NewFirst <==> p.NoPrevious?)
    ensures forall d :: (DecisionFor(p, s, waits, status) == d) == DecisionGiven(d, db, newest, maxRows, s)
  {
    ComparableExactly(db, newest, maxRows, s, status);
  }

  // ---------- what the next capture decides ----------

  /** Type `t` is one of the `maxRows` smallest wanted types. */
  ghost predicate Chosen(wanted: set<WaitType>, maxRows: int, t: WaitType) {
    t in wanted && |set u | u in wanted && u < t| < maxRows
  }

  lemma SmallestAreChosen(wanted: set<WaitType>, rows: set<WaitType>, maxRows: int, t: WaitType)
    requires rows <= wanted && |rows| == Min(maxRows, |wanted|) && (|rows| == |wanted| ==> rows == wanted)
    requires forall x, u | x in rows && u in wanted - rows :: x < u
    ensures (t in rows) == Chosen(wanted, maxRows, t)
  {
    var below := set u | u in wanted && u < t;
    if t in rows {
      forall u | u in below ensures u in rows {
        assert u in rows || u in wanted - rows;
      }
      assert below <= rows - {t};
      SubsetSize(below, rows - {t});
    } else if t in wanted {
      forall x | x in rows ensures x < t {
        assert t in wanted - rows;
      }
      assert rows <= below;
      SubsetSize(rows, below);
    }
  }

  /** The rows of a capture are the chosen types with the counters of the source. */
  ghost predicate RowsFrom(rows: map<WaitType, Counters>, wanted: set<WaitType>, maxRows: int, waits: seq<WaitRow>) {
    && (forall t :: (t in rows) == Chosen(wanted, maxRows, t))
    && (forall i | 0 <= i < |waits| && waits[i].waitType in rows :: rows[waits[i].waitType] == waits[i].counters)
  }

  lemma RowsSelected(db: Db, newest: Option<Entry>, p: Previous, policy: Policy, s: Source,
                     rows: map<WaitType, Counters>, limited: bool)
    requires Consistent(db) && Names(p, newest) && (newest.Some? ==> NewestHeld(db, newest.value))
    requires Selecting(db, newest, p, policy, s, rows, limited)
    ensures RowsFrom(rows, Wanted(db, newest, s.waits), policy.maxRows, s.waits)
  {
    EligibleIsWanted(db, newest, p, s.waits);
    var wanted := Wanted(db, newest, s.waits);
    assert |rows| == |rows.Keys|;
    forall t ensures (t in rows) == Chosen(wanted, policy.maxRows, t) {
      SmallestAreChosen(wanted, rows.Keys, policy.maxRows, t);
    }
    forall i | 0 <= i < |s.waits| && s.waits[i].waitType in rows
      ensures rows[s.waits[i].waitType] == s.waits[i].counters
    {
      RowMapValues(s.waits, i);
    }
  }

  predicate Busy(w: WaitRow) {
    w.counters.tasks > 0 || w.counters.waitTime > 0 || w.counters.maxTime > 0 || w.counters.signalTime > 0
  }

  function BusyTypes(waits: seq<WaitRow>): set<WaitType> {
    set i | 0 <= i < |waits| && Busy(waits[i]) :: waits[i].waitType
  }

  lemma ActiveIsBusy(waits: seq<WaitRow>)
    requires DistinctTypes(waits)
    ensures ActiveOf(RowMap(waits)) == BusyTypes(waits)
  {
    forall i | 0 <= i < |waits| ensures Busy(waits[i]) == (waits[i].waitType in ActiveOf(RowMap(waits))) {
      RowMapValues(waits, i);
    }
  }

  /** What the capture takes from the source, the clock and the newest run. */
  ghost predicate TakenFrom(c: Capture, db: Db, newest: Option<Entry>, maxRows: int, s: Source, clock: Clock) {
    && c.finished == clock.finished
    && s.engine == Some(c.engine) && s.start == Some(c.start) && s.end == Some(c.end)
    && c.native == |s.waits| && c.active == |BusyTypes(s.waits)|
    && c.eligible == |Wanted(db, newest, s.waits)|
    && RowsFrom(c.rows, Wanted(db, newest, s.waits), maxRows, s.waits)
    && c.previous == (if newest.Some? then Some(newest.value.run) else None)
    && c.previousVersion == (if ContextHeld(db, Last(newest)) then Some(1) else None)
  }

  /** What the capture concludes from them. */
  ghost predicate Concludes(c: Capture, db: Db, newest: Option<Entry>, maxRows: int, s: Source, newId: Epoch) {
    && (forall status :: (c.status == status) == FirstOf(Causes(db, newest, maxRows, s), status))
    && (forall d :: (c.decision == d) == DecisionGiven(d, db, newest, maxRows, s))
    && (c.decision == RetainContext ==> Last(newest).Some? && c.epoch == Last(newest).value.epoch)
    && (c.decision != RetainContext ==> c.epoch == newId)
    && (c.status == MonotonicContinuityUnproven ==> Last(newest).Some? && c.base == Last(newest).value.rows)
    && (c.status != MonotonicContinuityUnproven ==> c.base == map[])
  }

  lemma CompareTakes(p: Previous, r: RunId, started: int, s: Source, waits: map<WaitType, Counters>,
                     rows: map<WaitType, Counters>, eligible: nat, newId: Epoch, finished: int)
    requires s.engine.Some? && s.start.Some? && s.end.Some?
    ensures var c := Compare(p, r, started, s, waits, rows, eligible, newId, finished);
      && c.run == r && c.started == started && c.finished == finished
      && s.engine == Some(c.engine) && s.start == Some(c.start) && s.end == Some(c.end)
      && c.native == |s.waits| && c.active == |ActiveOf(waits)| && c.eligible == eligible && c.rows == rows
      && c.previous == (if p.Previous? then Some(p.run) else None)
      && c.previousVersion == (if p.Previous? then p.version else None)
      && c.status == StatusFor(p, s, c.start, c.end, waits, |rows| < eligible, rows.Keys * PreviousRows(p).Keys)
      && c.decision == DecisionFor(p, s, waits, c.status)
      && (c.status != MonotonicContinuityUnproven ==> c.base == map[])
  {
  }

  lemma NextTakes(db: Db, newest: Option<Entry>, r: RunId, started: int, policy: Policy, s: Source, newId: Epoch,
                  clock: Clock)
    requires Precedes(db, newest, r)
    requires PolicyOk(policy) && s.complete && SourceOk(s, started, clock.checked)
    ensures TakenFrom(Analyse(db, r, started, policy, s, newId, clock), db, newest, policy.maxRows, s, clock)
  {
    var p, waits := ReadPrevious(db, r), RowMap(s.waits);
    var hints := HintedTypes(db, p);
    var rows := Select(waits, hints, policy.maxRows);
    PredecessorRead(db, newest, r);
    SelectionFacts(waits, hints, policy.maxRows);
    EligibleIsWanted(db, newest, p, s.waits);
    RowsSelected(db, newest, p, policy, s, rows, |rows| < |Eligible(waits, hints)|);
    ActiveIsBusy(s.waits);
    CompareTakes(p, r, started, s, waits, rows, |Eligible(waits, hints)|, newId, clock.finished);
  }

  /** Retention and first epochs of a status that the procedure chose. */
  lemma NextPair(p: Previous, s: Source, start: int, end: int, waits: map<WaitType, Counters>, limited: bool,
                 common: set<WaitType>, status: Comparison)
    requires waits == RowMap(s.waits) && (limited ==> s.waits != [])
    requires status == StatusFor(p, s, start, end, waits, limited, common)
    ensures var d := DecisionFor(p, s, waits, status);
      (d == RetainContext <==> status in COMPARED) && (d == NewFirst <==> p.NoPrevious?)
  {
    DecisionFacts(p, s, start, end, waits, limited, common);
  }

  lemma LimitNeedsRows(waits: seq<WaitRow>, hints: set<WaitType>)
    ensures Eligible(RowMap(waits), hints) != {} ==> waits != []
  {
  }

  lemma NextCompares(db: Db, r: RunId, p: Previous, started: int, policy: Policy, s: Source, newId: Epoch, clock: Clock)
    requires PolicyOk(policy) && s.complete && SourceOk(s, started, clock.checked) && p == ReadPrevious(db, r)
    ensures var waits, hints := RowMap(s.waits), HintedTypes(db, p);
      Analyse(db, r, started, policy, s, newId, clock)
      == Compare(p, r, started, s, waits, Select(waits, hints, policy.maxRows), |Eligible(waits, hints)|, newId,
                 clock.finished)
  {
  }

  lemma ComparedPair(p: Previous, r: RunId, started: int, s: Source, hints: set<WaitType>,
                     rows: map<WaitType, Counters>, newId: Epoch, finished: int)
    requires s.engine.Some? && s.start.Some? && s.end.Some?
    ensures var waits := RowMap(s.waits);
      var c := Compare(p, r, started, s, waits, rows, |Eligible(waits, hints)|, newId, finished);
      && c.decision == DecisionFor(p, s, RowMap(s.waits), c.status)
      && (c.decision == RetainContext <==> c.status in COMPARED) && (c.decision == NewFirst <==> p.NoPrevious?)
  {
    var waits := RowMap(s.waits);
    var limited := |rows| < |Eligible(waits, hints)|;
    LimitNeedsRows(s.waits, hints);
    CompareTakes(p, r, started, s, waits, rows, |Eligible(waits, hints)|, newId, finished);
    NextPair(p, s, s.start.value, s.end.value, waits, limited, rows.Keys * PreviousRows(p).Keys,
             Compare(p, r, started, s, waits, rows, |Eligible(waits, hints)|, newId, finished).status);
  }

  lemma NextChoice(db: Db, r: RunId, p: Previous, started: int, policy: Policy, s: Source, newId: Epoch, clock: Clock)
    requires PolicyOk(policy) && s.complete && SourceOk(s, started, clock.checked) && p == ReadPrevious(db, r)
    ensures var c := Analyse(db, r, started, policy, s, newId, clock);
      && c.decision == DecisionFor(p, s, RowMap(s.waits), c.status)
      && (c.decision == RetainContext <==> c.status in COMPARED) && (c.decision == NewFirst <==> p.NoPrevious?)
  {
    var hints := HintedTypes(db, p);
    NextCompares(db, r, p, started, policy, s, newId, clock);
    ComparedPair(p, r, started, s, hints, Select(RowMap(s.waits), hints, policy.maxRows), newId, clock.finished);
  }

  lemma NextDecision(db: Db, newest: Option<Entry>, r: RunId, started: int, policy: Policy, s: Source, newId: Epoch,
                     clock: Clock)
    requires Precedes(db, newest, r)
    requires PolicyOk(policy) && s.complete && SourceOk(s, started, clock.checked)
    ensures forall d :: (Analyse(db, r, started, policy, s, newId, clock).decision == d)
                     == DecisionGiven(d, db, newest, policy.maxRows, s)
  {
    var p := ReadPrevious(db, r);
    StatusOfNext(db, newest, r, started, policy, s, newId, clock);
    PredecessorRead(db, newest, r);
    GroundsAreRead(p, db, newest, s);
    NextChoice(db, r, p, started, policy, s, newId, clock);
    DecisionExactly(p, db, newest, policy.maxRows, s, RowMap(s.waits),
                    Analyse(db, r, started, policy, s, newId, clock).status);
  }

  lemma NextStatus(db: Db, newest: Option<Entry>, r: RunId, started: int, policy: Policy, s: Source, newId: Epoch,
                   clock: Clock)
    requires Precedes(db, newest, r)
    requires PolicyOk(policy) && s.complete && SourceOk(s, started, clock.checked)
    ensures forall status :: (Analyse(db, r, started, policy, s, newId, clock).status == status)
                          == FirstOf(Causes(db, newest, policy.maxRows, s), status)
  {
    var cause, own := Causes(db, newest, policy.maxRows, s), Analyse(db, r, started, policy, s, newId, clock).status;
    StatusOfNext(db, newest, r, started, policy, s, newId, clock);
    forall status | FirstOf(cause, status) ensures own == status {
      OneFirst(cause, own, status);
    }
  }

  lemma NextRetains(db: Db, newest: Option<Entry>, r: RunId, started: int, policy: Policy, s: Source, newId: Epoch,
                    clock: Clock)
    requires Precedes(db, newest, r)
    requires PolicyOk(policy) && s.complete && SourceOk(s, started, clock.checked)
    ensures var c := Analyse(db, r, started, policy, s, newId, clock);
      && (c.decision != RetainContext ==> c.epoch == newId)
      && (c.decision == RetainContext ==>
            Last(newest).Some? && c.epoch == Last(newest).value.epoch && c.base == Last(newest).value.rows)
  {
    NewEpochFacts(db, r, started, policy, s, newId, clock);
    if newest.Some? {
      if newest.value.capture.Some? {
        if Analyse(db, r, started, policy, s, newId, clock).decision == RetainContext {
          RetainContinues(db, r, newest.value.capture.value, started, policy, s, newId, clock);
        }
      } else {
        FailedBreaksEpoch(db, newest.value, r, started, policy, s, newId, clock);
      }
    } else {
      NextDecision(db, newest, r, started, policy, s, newId, clock);
    }
  }

  lemma NextConcludes(db: Db, newest: Option<Entry>, r: RunId, started: int, policy: Policy, s: Source, newId: Epoch,
                      clock: Clock)
    requires Precedes(db, newest, r)
    requires PolicyOk(policy) && s.complete && SourceOk(s, started, clock.checked)
    ensures Concludes(Analyse(db, r, started, policy, s, newId, clock), db, newest, policy.maxRows, s, newId)
  {
    NextStatus(db, newest, r, started, policy, s, newId, clock);
    NextDecision(db, newest, r, started, policy, s, newId, clock);
    NextRetains(db, newest, r, started, policy, s, newId, clock);
    MonotonicRetains(db, newest, policy.maxRows, s, Analyse(db, r, started, policy, s, newId, clock));
    var p, waits := ReadPrevious(db, r), RowMap(s.waits);
    var hints := HintedTypes(db, p);
    CompareTakes(p, r, started, s, waits, Select(waits, hints, policy.maxRows), |Eligible(waits, hints)|, newId,
                 clock.finished);
  }

  lemma MonotonicRetains(db: Db, newest: Option<Entry>, maxRows: int, s: Source, c: Capture)
    requires forall status :: (c.status == status) == FirstOf(Causes(db, newest, maxRows, s), status)
    requires forall d :: (c.decision == d) == DecisionGiven(d, db, newest, maxRows, s)
    ensures c.status == MonotonicContinuityUnproven ==> c.decision == RetainContext
  {
    if c.status == MonotonicContinuityUnproven {
      ComparableExactly(db, newest, maxRows, s, c.status);
      assert DecisionGiven(RetainContext, db, newest, maxRows, s);
    }
  }

  // ---------- what the tables then hold ----------

  predicate Holds(db: Db, k: SampleKey, s: Sample) {
    k in db.samples && db.samples[k] == s
  }

  /** The status stored with one type. */
  function StatusOfType(c: Capture, t: WaitType): Comparison {
    if c.status != NoComparableTypes && c.status != MonotonicContinuityUnproven then c.status
    else if t in c.base then MonotonicContinuityUnproven
    else FirstObservation
  }

  /** The four raw counters, the status and, for a type of the base, the three
    * changes; and nothing else of this type. */
  ghost predicate TypeStored(db: Db, c: Capture, w: WaitRow) {
    var t, at, epoch := w.waitType, c.end, c.epoch;
    && Holds(db, TypeKey(c.run, t, TaskCount), Sample(at, epoch, Bigint(w.counters.tasks), MeasuredCumulative, false))
    && Holds(db, TypeKey(c.run, t, WaitTime), Sample(at, epoch, Bigint(w.counters.waitTime), MeasuredCumulative, false))
    && Holds(db, TypeKey(c.run, t, MaxTime), Sample(at, epoch, Bigint(w.counters.maxTime), MeasuredCumulative, false))
    && Holds(db, TypeKey(c.run, t, SignalTime),
             Sample(at, epoch, Bigint(w.counters.signalTime), MeasuredCumulative, false))
    && Holds(db, TypeKey(c.run, t, DeltaStatus),
             Sample(at, epoch, Str(StatusText(StatusOfType(c, t))), ComparisonStatus, true))
  }

  ghost predicate ChangesStored(db: Db, c: Capture, w: WaitRow) {
    var t, at, epoch := w.waitType, c.end, c.epoch;
    if t in c.base then
      var b := c.base[t];
      && Holds(db, TypeKey(c.run, t, TaskDelta),
               Sample(at, epoch, Bigint(w.counters.tasks - b.tasks), ContinuityUnproven, true))
      && Holds(db, TypeKey(c.run, t, TimeDelta),
               Sample(at, epoch, Bigint(w.counters.waitTime - b.waitTime), ContinuityUnproven, true))
      && Holds(db, TypeKey(c.run, t, SignalDelta),
               Sample(at, epoch, Bigint(w.counters.signalTime - b.signalTime), ContinuityUnproven, true))
    else forall m: Metric | m.IsDelta() :: TypeKey(c.run, t, m) !in db.samples
  }

  ghost predicate TypeAbsent(db: Db, r: RunId, t: WaitType) {
    forall k | k in db.samples && k.run == r :: k.scope != WaitTypeScope(t)
  }

  /** The context sample spells out the counts, the status and the decision. */
  ghost predicate ContextSampleStored(db: Db, c: Capture) {
    Holds(db, SampleKey(c.run, ServerScope, CaptureContext),
          Sample(c.end, c.epoch,
                 Str(ContextText(Context(
                   1, c.run, c.epoch, c.engine, c.start, c.end, c.native, c.active, c.eligible, |c.rows|,
                   |c.rows| < c.eligible, 4 * |c.rows|, c.rows, c.previous, c.previousVersion, c.status, |c.base|,
                   3 * |c.base|, c.decision))),
                 CaptureContextV1, false))
  }

  /** The tables after a capture of the source's rows. */
  ghost predicate TablesShow(db: Db, c: Capture, waits: seq<WaitRow>) {
    && (forall i | 0 <= i < |waits| && waits[i].waitType in c.rows ::
          TypeStored(db, c, waits[i]) && ChangesStored(db, c, waits[i]))
    && (forall t | t !in c.rows :: TypeAbsent(db, c.run, t))
    && ContextSampleStored(db, c)
  }

  /** The samples of the run are exactly those of the capture. */
  ghost predicate StoresAll(db: Db, c: Capture) {
    && c.base.Keys <= c.rows.Keys
    && forall k: SampleKey | k.run == c.run ::
         (k in db.samples) == Stores(c, k) && (Stores(c, k) ==> db.samples[k] == SampleAt(c, k))
  }

  lemma AllStored(db: Db, c: Capture)
    requires c.base.Keys <= c.rows.Keys && SamplesOfRun(db, c.run) == SamplesOf(c)
    ensures StoresAll(db, c)
  {
    var samples := SamplesOfRun(db, c.run);
    forall k: SampleKey | k.run == c.run
      ensures (k in db.samples) == Stores(c, k) && (Stores(c, k) ==> db.samples[k] == SampleAt(c, k))
    {
      assert (k in samples) == (k in db.samples);
    }
  }

  lemma RawIsStored(db: Db, c: Capture, w: WaitRow, m: Metric)
    requires StoresAll(db, c) && w.waitType in c.rows && c.rows[w.waitType] == w.counters && m.IsRaw()
    ensures Holds(db, TypeKey(c.run, w.waitType, m),
                  Sample(c.end, c.epoch, Bigint(w.counters.Raw(m)), MeasuredCumulative, false))
  {
  }

  lemma StatusIsStored(db: Db, c: Capture, w: WaitRow)
    requires StoresAll(db, c) && w.waitType in c.rows
    ensures Holds(db, TypeKey(c.run, w.waitType, DeltaStatus),
                  Sample(c.end, c.epoch, Str(StatusText(StatusOfType(c, w.waitType))), ComparisonStatus, true))
  {
    assert Stores(c, TypeKey(c.run, w.waitType, DeltaStatus));
  }

  lemma TypeIsStored(db: Db, c: Capture, w: WaitRow)
    requires StoresAll(db, c) && w.waitType in c.rows && c.rows[w.waitType] == w.counters
    ensures TypeStored(db, c, w)
  {
    RawIsStored(db, c, w, TaskCount);
    RawIsStored(db, c, w, WaitTime);
    RawIsStored(db, c, w, MaxTime);
    RawIsStored(db, c, w, SignalTime);
    StatusIsStored(db, c, w);
  }

  lemma ChangeIsStored(db: Db, c: Capture, w: WaitRow, m: Metric)
    requires StoresAll(db, c) && w.waitType in c.base && c.rows[w.waitType] == w.counters && m.IsDelta()
    ensures Holds(db, TypeKey(c.run, w.waitType, m),
                  Sample(c.end, c.epoch, Bigint(Difference(w.counters, c.base[w.waitType], m)), ContinuityUnproven,
                         true))
  {
  }

  lemma ChangesAreStored(db: Db, c: Capture, w: WaitRow)
    requires StoresAll(db, c) && w.waitType in c.rows && c.rows[w.waitType] == w.counters
    ensures ChangesStored(db, c, w)
  {
    if w.waitType in c.base {
      ChangeIsStored(db, c, w, TaskDelta);
      ChangeIsStored(db, c, w, TimeDelta);
      ChangeIsStored(db, c, w, SignalDelta);
    }
  }

  lemma ContextIsStored(db: Db, c: Capture)
    requires StoresAll(db, c)
    ensures ContextSampleStored(db, c)
  {
    assert Stores(c, ContextKey(c.run));
  }

  lemma CaptureShows(db: Db, c: Capture, waits: seq<WaitRow>)
    requires StoresAll(db, c)
    requires forall i | 0 <= i < |waits| && waits[i].waitType in c.rows ::
      c.rows[waits[i].waitType] == waits[i].counters
    ensures TablesShow(db, c, waits)
  {
    forall i | 0 <= i < |waits| && waits[i].waitType in c.rows
      ensures TypeStored(db, c, waits[i]) && ChangesStored(db, c, waits[i])
    {
      TypeIsStored(db, c, waits[i]);
      ChangesAreStored(db, c, waits[i]);
    }
    ContextIsStored(db, c);
  }

  /** The run row of a capture, and everything that belongs to other runs. */
  ghost predicate RunShown(before: Db, after: Db, c: Capture, payloadEnabled: bool) {
    && after.runs == before.runs[c.run := Run(WaitStats, c.started, Some(c.finished), PartialResult, None,
                                              Some(c.epoch), 5 * |c.rows| + 3 * |c.base| + 1,
                                              if payloadEnabled then 1 else 0)]
    && (forall k: SampleKey | k.run != c.run :: k in after.samples <==> k in before.samples)
    && (forall k: SampleKey | k.run != c.run && k in before.samples :: after.samples[k] == before.samples[k])
    && after.payloads == (if payloadEnabled then before.payloads[before.nextPayload := Payload(c.run, c.end)]
                          else before.payloads)
    && after.modules == before.modules[ModuleKey(c.run, WaitSource) := Available]
                                      [ModuleKey(c.run, WaitCompletion) := PartialResult]
  }

  lemma OthersKept(a: map<SampleKey, Sample>, written: map<SampleKey, Sample>, r: RunId)
    requires forall k | k in written :: k.run == r
    ensures forall k: SampleKey | k.run != r :: k in a + written <==> k in a
    ensures forall k: SampleKey | k.run != r && k in a :: (a + written)[k] == a[k]
  {
  }

  lemma RunRowOf(c: Capture, payloads: nat)
    requires c.base.Keys <= c.rows.Keys
    ensures RunOf(c, payloads) == Run(WaitStats, c.started, Some(c.finished), PartialResult, None, Some(c.epoch),
                                      5 * |c.rows| + 3 * |c.base| + 1, payloads)
  {
    SampleQuantity(c);
  }

  lemma InsertShows(before: Db, c: Capture, payloadEnabled: bool)
    requires c.base.Keys <= c.rows.Keys
    ensures RunShown(before, Insert(before, c, payloadEnabled), c, payloadEnabled)
  {
    RunRowOf(c, if payloadEnabled then 1 else 0);
    OthersKept(before.samples, SamplesOf(c), c.run);
  }

  /** In every reachable state: what a completed capture stores of the source, with
    * which comparison status and epoch decision, and why. */
  lemma CaptureOfEveryHistory(h: History, r: RunId, policy: Policy, s: Source, newId: Epoch, clock: Clock, f: Failure,
                              after: Db, c: Capture)
    requires Reachable(h) && OlderFinalized(h.db, r)
    requires Complete(h.db, r, policy, s, newId, clock, f) == (after, Captured(c))
    ensures c.run == r && r in h.db.runs && c.started == h.db.runs[r].started
    ensures TakenFrom(c, h.db, Newest(h.log), policy.maxRows, s, clock)
    ensures Concludes(c, h.db, Newest(h.log), policy.maxRows, s, newId)
    ensures TablesShow(after, c, s.waits) && RunShown(h.db, after, c, policy.payloadEnabled)
  {
    CapturedIsAnalysed(h.db, r, policy, s, newId, clock, f);
    var started := h.db.runs[r].started;
    ReachablePrecedes(h, r);
    NextTakes(h.db, Newest(h.log), r, started, policy, s, newId, clock);
    NextConcludes(h.db, Newest(h.log), r, started, policy, s, newId, clock);
    NewEpochFacts(h.db, r, started, policy, s, newId, clock);
    CapturedIsInserted(h.db, Analyse(h.db, r, started, policy, s, newId, clock), policy.payloadEnabled, clock, f);
    InsertedSamples(h.db, c, policy.payloadEnabled);
    AllStored(after, c);
    CaptureShows(after, c, s.waits);
    InsertShows(h.db, c, policy.payloadEnabled);
  }

  // ---------- what a failed completion leaves ----------

  /** Permission errors, missing modules and parameters, and everything else. */
  predicate ErrorClass(error: int, status: RunStatus) {
    && (status == DeniedPermission <==>
          error == 229 || error == 262 || error == 297 || error == 300 || error == 371)
    && (status == TargetUnavailable <==>
          error == 53761 || error == 53762 || error == 53764 || error == 2812 || error == 8144 || error == 8145)
    && status in {DeniedPermission, TargetUnavailable, ErrorHandled}
  }

  /** Run `r` is closed with no samples, and nothing else changes but its modules. */
  ghost predicate ClosedAs(before: Db, after: Db, r: RunId, at: int, status: RunStatus, error: Option<int>,
                           payloadCount: nat, name: Module)
    requires r in before.runs
  {
    && after.runs == before.runs[r := Run(WaitStats, before.runs[r].started, Some(at), status, error, None, 0,
                                          payloadCount)]
    && after.samples == before.samples && after.scopes == before.scopes && after.nextRun == before.nextRun
    && after.modules == before.modules[ModuleKey(r, name) := status]
  }

  lemma ClosedLeaves(db: Db, r: RunId, error: int, at: int, fails: bool)
    requires OwnOpenRun(db, r)
    ensures var (after, outcome) := CloseFailed(db, r, error, at, fails);
      if fails || at < db.runs[r].started then after == db && outcome == Unconfirmed(error)
      else
        && outcome == Closed(error) && after.payloads == db.payloads && r in after.runs
        && ErrorClass(error, after.runs[r].status)
        && ClosedAs(db, after, r, at, after.runs[r].status, Some(error), 0, WaitCompletion)
  {
  }

  lemma FailedSourceLeaves(db: Db, r: RunId, s: Source, payloadEnabled: bool, at: int)
    requires OwnOpenRun(db, r)
    ensures var after := FinishWithoutMetrics(db, r, s, payloadEnabled, at);
      && r in after.runs
      && ClosedAs(db, after, r, at, after.runs[r].status, s.error, if payloadEnabled then 1 else 0, WaitSource)
      && (after.runs[r].status == DeniedPermission <==> s.status == SourceDenied)
      && (after.runs[r].status == UnavailableObject <==> s.status == SourceMissing)
      && after.runs[r].status in {DeniedPermission, UnavailableObject, ErrorHandled}
      && after.payloads == (if payloadEnabled then db.payloads[db.nextPayload := Payload(r, at)] else db.payloads)
  {
  }
}
