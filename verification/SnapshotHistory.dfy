/** Whole histories of captures and purges.
  *
  * A history carries, beside the tables, a ghost log with one entry for every
  * Wait run that was ever finalized.  Runs are completed in the order of their
  * identifiers; everything else may interleave freely, other collectors included. */
module SnapshotHistory {
  import opened Common
  import opened SnapshotTables
  import opened SnapshotCapture
  import opened SnapshotAgreement
  import opened SnapshotDecision
  import opened SnapshotPurge
  import opened SnapshotStore

  datatype Entry = Entry(run: RunId, row: Run, capture: Option<Capture>)

  datatype History = History(db: Db, log: seq<Entry>)

  function EpochOf(e: Entry): Option<Epoch> {
    match e.capture
    case Some(c) => Some(c.epoch)
    case None => None
  }

  // ---------- steps ----------

  datatype Action =
    | PrepareWait(now: int)
    | CompleteWait(run: RunId, policy: Policy, source: Source, newId: Epoch, clock: Clock, failure: Failure)
    | Purge(rawCut: int, payloadCut: int)
    | OtherCollector

  ghost predicate FreshEpoch(log: seq<Entry>, e: Epoch) {
    forall i | 0 <= i < |log| :: EpochOf(log[i]) != Some(e)
  }

  /** Log entries added by one completion. */
  function Logged(after: Db, run: RunId, outcome: Outcome): seq<Entry> {
    if outcome.NotOwnRun? || outcome.Refused? || outcome.Unconfirmed? || run !in after.runs then []
    else if outcome.Captured? then [Entry(run, after.runs[run], Some(outcome.capture))]
    else [Entry(run, after.runs[run], None)]
  }

  /** Another collector may add runs of its own and rows below them, and scopes;
    * it leaves every existing row and every Wait run alone. */
  ghost predicate OtherCollectorEffect(a: Db, b: Db) {
    && Consistent(b)
    && Shrinks(b.samples, a.samples) && Shrinks(b.payloads, a.payloads) && Shrinks(b.modules, a.modules)
    && (forall r | r in a.runs :: r in b.runs && (b.runs[r] == a.runs[r]
          || (a.runs[r].collector != WaitStats && b.runs[r].collector == a.runs[r].collector)))
    && (forall r | r in b.runs && r !in a.runs :: a.nextRun <= r && b.runs[r].collector != WaitStats)
    && (forall k | k in b.samples && k !in a.samples :: k.run in b.runs && b.runs[k.run].collector != WaitStats)
    && a.scopes <= b.scopes && a.nextRun <= b.nextRun
  }

  /** Every finalized wait run is older than `r`. */
  ghost predicate OlderFinalized(db: Db, r: RunId) {
    forall other | other in db.runs && FinalizedWait(db, other) :: other < r
  }

  ghost predicate Step(h: History, act: Action, h': History) {
    match act
    case PrepareWait(now) =>
      h' == History(Prepared(h.db, WaitStats, now, PrepareAvailable), h.log)
    case CompleteWait(r, policy, source, newId, clock, failure) =>
      && OlderFinalized(h.db, r)
      && FreshEpoch(h.log, newId)
      && var (db, outcome) := Complete(h.db, r, policy, source, newId, clock, failure);
         h' == History(db, h.log + Logged(db, r, outcome))
    case Purge(rawCut, payloadCut) =>
      PurgeEffect(h.db, h'.db, rawCut, payloadCut) && h'.log == h.log
    case OtherCollector =>
      OtherCollectorEffect(h.db, h'.db) && h'.log == h.log
  }

  ghost predicate Initial(h: History) {
    Consistent(h.db) && h.log == [] && forall r | r in h.db.runs :: h.db.runs[r].collector != WaitStats
  }

  /** `trace[i + 1]` follows from `trace[i]` by `acts[i]`. */
  ghost predicate IsTrace(trace: seq<History>, acts: seq<Action>) {
    && |trace| == |acts| + 1 && Initial(trace[0])
    && forall i | 0 <= i < |acts| :: Step(trace[i], acts[i], trace[i + 1])
  }

  /** A state of some history of captures, purges and other collectors. */
  ghost predicate Reachable(h: History) {
    exists trace, acts :: IsTrace(trace, acts) && h in trace
  }

  // ---------- the invariant ----------

  /** A finalized entry as it was logged. */
  ghost predicate EntryOk(e: Entry) {
    && e.row.collector == WaitStats && e.row.ended.Some? && 0 < e.run
    && match e.capture
       case None => e.row.epoch.None? && e.row.status != Available && e.row.status != PartialResult
       case Some(c) => c.run == e.run && CaptureOk(c) && exists payloads: nat :: e.row == RunOf(c, payloads)
  }

  /** How entry `i` relates to the entries before it. */
  ghost predicate LinkOk(log: seq<Entry>, i: nat)
    requires i < |log|
  {
    match log[i].capture
    case None => true
    case Some(c) =>
      && (c.previous == if i == 0 then None else Some(log[i - 1].run))
      && if c.decision == RetainContext then
           && i > 0 && log[i - 1].capture.Some?
           && c.epoch == log[i - 1].capture.value.epoch && c.engine == log[i - 1].capture.value.engine
           && log[i - 1].capture.value.end <= c.start && c.base == log[i - 1].capture.value.rows
         else
           c.base == map[] && forall j | 0 <= j < i :: EpochOf(log[j]) != Some(c.epoch)
  }

  /** What the tables still hold of one entry: its row as logged if at all, and
    * of its samples only ones it stored, unchanged. */
  ghost predicate EntryHeld(db: Db, e: Entry) {
    && e.run < db.nextRun
    && (e.run in db.runs ==> db.runs[e.run] == e.row)
    && (e.capture.Some? ==> ServerScope in db.scopes && e.capture.value.base.Keys <= e.capture.value.rows.Keys)
    && (forall k | k in db.samples && k.run == e.run ::
          e.capture.Some? && Stores(e.capture.value, k) && db.samples[k] == SampleAt(e.capture.value, k))
  }

  ghost predicate InLog(log: seq<Entry>, r: RunId) {
    exists i :: 0 <= i < |log| && log[i].run == r
  }

  ghost predicate TablesMatchLog(db: Db, log: seq<Entry>) {
    && (forall i | 0 <= i < |log| :: EntryHeld(db, log[i]))
    && (forall r | r in db.runs && FinalizedWait(db, r) :: InLog(log, r))
    && (log != [] ==> log[|log| - 1].run in db.runs)
  }

  ghost predicate LogOk(log: seq<Entry>) {
    && (forall i | 0 <= i < |log| :: EntryOk(log[i]) && LinkOk(log, i))
    && (forall i, j | 0 <= i < j < |log| :: log[i].run < log[j].run)
  }

  ghost predicate Inv(h: History) {
    Consistent(h.db) && LogOk(h.log) && TablesMatchLog(h.db, h.log)
  }

  lemma InitialInv(h: History)
    requires Initial(h)
    ensures Inv(h)
  {
  }

  lemma PreparePreserves(h: History, now: int, h': History)
    requires Inv(h) && Step(h, PrepareWait(now), h')
    ensures Inv(h')
  {
    PreparedRunIsOwn(h.db, now);
    forall i | 0 <= i < |h.log| ensures EntryHeld(h'.db, h.log[i]) {
      assert EntryHeld(h.db, h.log[i]);
    }
    forall r | r in h'.db.runs && FinalizedWait(h'.db, r) ensures InLog(h'.log, r) {
      assert FinalizedWait(h.db, r);
    }
  }

  lemma NewestIsGreatest(log: seq<Entry>, r: RunId)
    requires LogOk(log) && InLog(log, r)
    ensures log != [] && r <= log[|log| - 1].run
  {
  }

  /** The newest entry is the fence. */
  lemma NewestIsFence(h: History)
    requires Inv(h) && h.log != []
    ensures Fence(h.db, h.log[|h.log| - 1].run)
  {
    var last := h.log[|h.log| - 1];
    assert FinalizedWait(h.db, last.run) by { assert EntryHeld(h.db, last) && EntryOk(last); }
    forall r | r in h.db.runs && FinalizedWait(h.db, r) ensures r <= last.run {
      NewestIsGreatest(h.log, r);
    }
  }

  lemma HeldAfterPurge(a: Db, b: Db, rawCut: int, payloadCut: int, e: Entry)
    requires PurgeEffect(a, b, rawCut, payloadCut) && EntryHeld(a, e)
    ensures EntryHeld(b, e)
  {
  }

  lemma NewestAfterPurge(h: History, b: Db, rawCut: int, payloadCut: int)
    requires Inv(h) && PurgeEffect(h.db, b, rawCut, payloadCut) && h.log != []
    ensures h.log[|h.log| - 1].run in b.runs
  {
    NewestIsFence(h);
    FenceSurvives(h.db, b, rawCut, payloadCut, h.log[|h.log| - 1].run);
  }

  lemma PurgePreserves(h: History, rawCut: int, payloadCut: int, h': History)
    requires Inv(h) && Step(h, Purge(rawCut, payloadCut), h')
    ensures Inv(h')
  {
    if h.log != [] {
      NewestAfterPurge(h, h'.db, rawCut, payloadCut);
    }
    forall i | 0 <= i < |h.log| ensures EntryHeld(h'.db, h.log[i]) {
      HeldAfterPurge(h.db, h'.db, rawCut, payloadCut, h.log[i]);
    }
    forall r | r in h'.db.runs && FinalizedWait(h'.db, r) ensures InLog(h'.log, r) {
      assert FinalizedWait(h.db, r);
    }
  }

  lemma HeldAfterOther(a: Db, b: Db, e: Entry)
    requires OtherCollectorEffect(a, b) && EntryHeld(a, e) && EntryOk(e)
    ensures EntryHeld(b, e)
  {
    forall k | k in b.samples && k.run == e.run ensures k in a.samples {
    }
  }

  lemma FinalizedAfterOther(a: Db, b: Db, log: seq<Entry>)
    requires OtherCollectorEffect(a, b) && forall r | r in a.runs && FinalizedWait(a, r) :: InLog(log, r)
    ensures forall r | r in b.runs && FinalizedWait(b, r) :: InLog(log, r)
  {
    forall r | r in b.runs && FinalizedWait(b, r) ensures InLog(log, r) {
      assert r in a.runs && FinalizedWait(a, r);
    }
  }

  lemma EntriesAfterOther(a: Db, b: Db, log: seq<Entry>)
    requires OtherCollectorEffect(a, b) && forall i | 0 <= i < |log| :: EntryHeld(a, log[i]) && EntryOk(log[i])
    ensures forall i | 0 <= i < |log| :: EntryHeld(b, log[i])
  {
    forall i | 0 <= i < |log| ensures EntryHeld(b, log[i]) {
      HeldAfterOther(a, b, log[i]);
    }
  }

  lemma OtherPreserves(h: History, h': History)
    requires Inv(h) && Step(h, OtherCollector, h')
    ensures Inv(h')
  {
    EntriesAfterOther(h.db, h'.db, h.log);
    FinalizedAfterOther(h.db, h'.db, h.log);
  }

  // ---------- completing a run ----------

  /** Run `r` was closed with `row`, and its samples, if any, were added. */
  ghost predicate Finalizes(a: Db, b: Db, r: RunId, row: Run) {
    && Consistent(b) && r in a.runs
    && b.runs == a.runs[r := row] && row.collector == WaitStats && row.ended.Some?
    && Shrinks(b.samples, a.samples)
    && (forall k | k in b.samples && k !in a.samples :: k.run == r)
    && a.scopes <= b.scopes && b.nextRun == a.nextRun
  }

  lemma EntryStaysHeld(a: Db, b: Db, r: RunId, row: Run, e: Entry)
    requires Finalizes(a, b, r, row) && EntryHeld(a, e) && e.run < r
    ensures EntryHeld(b, e)
  {
  }

  lemma LinkStays(log: seq<Entry>, e: Entry, i: nat)
    requires i < |log| && LinkOk(log, i)
    ensures LinkOk(log + [e], i)
  {
    assert forall j | 0 <= j <= i :: (log + [e])[j] == log[j];
  }

  lemma AppendKeepsLinks(log: seq<Entry>, e: Entry)
    requires (forall i | 0 <= i < |log| :: LinkOk(log, i)) && LinkOk(log + [e], |log|)
    ensures forall i | 0 <= i < |log + [e]| :: LinkOk(log + [e], i)
  {
    forall i | 0 <= i < |log + [e]| ensures LinkOk(log + [e], i) {
      if i < |log| {
        LinkStays(log, e, i);
      }
    }
  }

  lemma AppendKeepsOrder(log: seq<Entry>, e: Entry)
    requires forall i, j | 0 <= i < j < |log| :: log[i].run < log[j].run
    requires forall i | 0 <= i < |log| :: log[i].run < e.run
    ensures forall i, j | 0 <= i < j < |log + [e]| :: (log + [e])[i].run < (log + [e])[j].run
  {
  }

  lemma AppendKeepsLog(log: seq<Entry>, e: Entry)
    requires LogOk(log) && EntryOk(e) && LinkOk(log + [e], |log|)
    requires forall i | 0 <= i < |log| :: log[i].run < e.run
    ensures LogOk(log + [e])
  {
    AppendKeepsLinks(log, e);
    AppendKeepsOrder(log, e);
    forall i | 0 <= i < |log + [e]| ensures EntryOk((log + [e])[i]) {
      assert (log + [e])[i] == if i < |log| then log[i] else e;
    }
  }

  lemma AppendKeepsEntries(h: History, b: Db, e: Entry)
    requires TablesMatchLog(h.db, h.log) && Finalizes(h.db, b, e.run, e.row) && EntryHeld(b, e)
    requires forall i | 0 <= i < |h.log| :: h.log[i].run < e.run
    ensures var log := h.log + [e]; forall i | 0 <= i < |log| :: EntryHeld(b, log[i])
  {
    var log := h.log + [e];
    forall i | 0 <= i < |log| ensures EntryHeld(b, log[i]) {
      if i < |h.log| {
        EntryStaysHeld(h.db, b, e.run, e.row, h.log[i]);
      }
    }
  }

  lemma AppendCoversRuns(h: History, b: Db, e: Entry)
    requires TablesMatchLog(h.db, h.log) && Finalizes(h.db, b, e.run, e.row)
    ensures forall r | r in b.runs && FinalizedWait(b, r) :: InLog(h.log + [e], r)
  {
    var log := h.log + [e];
    forall r | r in b.runs && FinalizedWait(b, r) ensures InLog(log, r) {
      if r != e.run {
        assert FinalizedWait(h.db, r) && InLog(h.log, r);
        var i :| 0 <= i < |h.log| && h.log[i].run == r;
        assert log[i].run == r;
      } else {
        assert log[|h.log|].run == r;
      }
    }
  }

  lemma AppendPreserves(h: History, b: Db, e: Entry)
    requires Inv(h) && Finalizes(h.db, b, e.run, e.row) && EntryOk(e) && EntryHeld(b, e)
    requires forall i | 0 <= i < |h.log| :: h.log[i].run < e.run
    requires LinkOk(h.log + [e], |h.log|)
    ensures Inv(History(b, h.log + [e]))
  {
    AppendKeepsLog(h.log, e);
    AppendKeepsEntries(h, b, e);
    AppendCoversRuns(h, b, e);
  }

  /** The predecessor a capture reads is the newest log entry. */
  lemma PredecessorIsNewest(h: History, r: RunId)
    requires Inv(h) && OlderFinalized(h.db, r)
    ensures LatestFinalized(h.db, r) == if h.log == [] then None else Some(h.log[|h.log| - 1].run)
  {
    var ids := set x | x in h.db.runs && FinalizedWait(h.db, x) && x < r;
    if h.log == [] {
      assert ids == {};
    } else {
      NewestIsFence(h);
      var last := h.log[|h.log| - 1].run;
      assert last in ids && forall x | x in ids :: x <= last;
      assert Greatest(ids) == last;
    }
  }

  lemma NewerThanLog(h: History, r: RunId)
    requires Inv(h) && OwnOpenRun(h.db, r)
    requires OlderFinalized(h.db, r)
    ensures forall i | 0 <= i < |h.log| :: h.log[i].run < r
  {
    if h.log != [] {
      NewestIsFence(h);
      forall i | 0 <= i < |h.log| ensures h.log[i].run < r {
        NewestIsGreatest(h.log, h.log[i].run);
      }
    }
  }

  /** A failed predecessor as the tables hold it. */
  ghost predicate FailedRow(db: Db, e: Entry) {
    e.capture.None? && EntryHeld(db, e) && EntryOk(e)
  }

  /** What the tables hold of the newest entry. */
  ghost predicate NewestHeld(db: Db, newest: Entry) {
    match newest.capture
    case None => FailedRow(db, newest)
    case Some(c) => c.run == newest.run && CaptureOk(c) && Remains(db, c)
  }

  lemma NewestIsHeld(h: History)
    requires Inv(h) && h.log != []
    ensures NewestHeld(h.db, h.log[|h.log| - 1])
  {
    var e := h.log[|h.log| - 1];
    assert EntryHeld(h.db, e) && EntryOk(e);
  }

  /** A failed predecessor is never continued. */
  lemma FailedBreaksEpoch(db: Db, e: Entry, r: RunId, started: int, policy: Policy, s: Source, newId: Epoch,
                          clock: Clock)
    requires FailedRow(db, e) && LatestFinalized(db, r) == Some(e.run)
    requires PolicyOk(policy) && s.complete && SourceOk(s, started, clock.checked)
    ensures var c := Analyse(db, r, started, policy, s, newId, clock);
      c.decision != RetainContext && c.base == map[] && c.epoch == newId
  {
  }

  /** What a capture that keeps the epoch owes to the newest entry. */
  ghost predicate ContinuesNewest(log: seq<Entry>, c: Capture) {
    && log != [] && log[|log| - 1].capture.Some?
    && c.epoch == log[|log| - 1].capture.value.epoch && c.engine == log[|log| - 1].capture.value.engine
    && log[|log| - 1].capture.value.end <= c.start && c.base == log[|log| - 1].capture.value.rows
  }

  lemma RetainedContinuesNewest(h: History, r: RunId, started: int, policy: Policy, s: Source, newId: Epoch,
                                clock: Clock)
    requires Inv(h)
    requires LatestFinalized(h.db, r) == if h.log == [] then None else Some(h.log[|h.log| - 1].run)
    requires PolicyOk(policy) && s.complete && SourceOk(s, started, clock.checked)
    requires Analyse(h.db, r, started, policy, s, newId, clock).decision == RetainContext
    ensures ContinuesNewest(h.log, Analyse(h.db, r, started, policy, s, newId, clock))
  {
    if h.log != [] {
      NewestIsHeld(h);
      if h.log[|h.log| - 1].capture.Some? {
        RetainContinues(h.db, r, h.log[|h.log| - 1].capture.value, started, policy, s, newId, clock);
      } else {
        FailedBreaksEpoch(h.db, h.log[|h.log| - 1], r, started, policy, s, newId, clock);
      }
    }
  }

  lemma LinksFollow(log: seq<Entry>, e: Entry, newId: Epoch)
    requires e.capture.Some? && FreshEpoch(log, newId) && Linked(log, e.capture.value, newId)
    ensures LinkOk(log + [e], |log|)
  {
  }

  /** A capture in terms of the log alone. */
  ghost predicate Linked(log: seq<Entry>, c: Capture, newId: Epoch) {
    && c.previous == (if log == [] then None else Some(log[|log| - 1].run))
    && if c.decision == RetainContext then ContinuesNewest(log, c) else c.epoch == newId && c.base == map[]
  }

  lemma CaptureLinks(h: History, r: RunId, started: int, policy: Policy, s: Source, newId: Epoch, clock: Clock)
    requires Inv(h)
    requires OlderFinalized(h.db, r)
    requires PolicyOk(policy) && s.complete && SourceOk(s, started, clock.checked)
    ensures Linked(h.log, Analyse(h.db, r, started, policy, s, newId, clock), newId)
  {
    assert LatestFinalized(h.db, r) == if h.log == [] then None else Some(h.log[|h.log| - 1].run) by {
      PredecessorIsNewest(h, r);
    }
    NewEpochFacts(h.db, r, started, policy, s, newId, clock);
    if Analyse(h.db, r, started, policy, s, newId, clock).decision == RetainContext {
      RetainedContinuesNewest(h, r, started, policy, s, newId, clock);
    }
  }

  lemma CloseFinalizes(a: Db, r: RunId, error: int, at: int, fails: bool)
    requires Consistent(a) && OwnOpenRun(a, r) && !fails && at >= a.runs[r].started
    ensures var b := CloseFailed(a, r, error, at, fails).0; var e := Entry(r, b.runs[r], None);
      Finalizes(a, b, r, b.runs[r]) && EntryOk(e) && EntryHeld(b, e)
  {
    var b := CloseFailed(a, r, error, at, fails).0;
    forall k | k in b.samples && k.run == r ensures false {
      assert HasChildren(a, r);
    }
  }

  lemma FailureFinalizes(a: Db, r: RunId, s: Source, payloadEnabled: bool, at: int)
    requires Consistent(a) && OwnOpenRun(a, r)
    ensures var b := FinishWithoutMetrics(a, r, s, payloadEnabled, at); var e := Entry(r, b.runs[r], None);
      Finalizes(a, b, r, b.runs[r]) && EntryOk(e) && EntryHeld(b, e)
  {
    var b := FinishWithoutMetrics(a, r, s, payloadEnabled, at);
    forall k | k in b.samples && k.run == r ensures false {
      assert HasChildren(a, r);
    }
  }

  lemma InsertedSamplesLand(a: Db, c: Capture, payloadEnabled: bool)
    requires Consistent(a) && c.run in a.runs && c.base.Keys <= c.rows.Keys
    ensures var b := Insert(a, c, payloadEnabled); forall k | k in b.samples :: k.run in b.runs && k.scope in b.scopes
  {
    var b := Insert(a, c, payloadEnabled);
    forall k | k in b.samples ensures k.run in b.runs && k.scope in b.scopes {
      if k in SamplesOf(c) {
        assert Stores(c, k);
        assert k.scope in ScopesOf(c);
      }
    }
  }

  lemma InsertedScopesHang(a: Db, c: Capture)
    requires Consistent(a)
    ensures forall s | s in a.scopes + ScopesOf(c) :: s.Parent().Some? ==> s.Parent().value in a.scopes + ScopesOf(c)
  {
  }

  lemma InsertedPayloadsLand(a: Db, c: Capture, payloadEnabled: bool)
    requires Consistent(a) && c.run in a.runs && c.base.Keys <= c.rows.Keys
    ensures var b := Insert(a, c, payloadEnabled);
      forall p | p in b.payloads :: b.payloads[p].run in b.runs && p < b.nextPayload
  {
  }

  lemma InsertConsistent(a: Db, c: Capture, payloadEnabled: bool)
    requires Consistent(a) && c.run in a.runs && c.base.Keys <= c.rows.Keys
    ensures Consistent(Insert(a, c, payloadEnabled))
  {
    InsertedSamplesLand(a, c, payloadEnabled);
    InsertedPayloadsLand(a, c, payloadEnabled);
    InsertedScopesHang(a, c);
  }

  lemma InsertFinalizes(a: Db, c: Capture, payloadEnabled: bool)
    requires Consistent(a) && OwnOpenRun(a, c.run) && CaptureOk(c)
    ensures var b := Insert(a, c, payloadEnabled); var e := Entry(c.run, b.runs[c.run], Some(c));
      Finalizes(a, b, c.run, b.runs[c.run]) && EntryOk(e) && EntryHeld(b, e)
  {
    var b := Insert(a, c, payloadEnabled);
    InsertConsistent(a, c, payloadEnabled);
    assert forall k | k in a.samples :: k.run != c.run by {
      assert !HasChildren(a, c.run);
    }
    var row := b.runs[c.run];
    assert row == RunOf(c, if payloadEnabled then 1 else 0);
  }

  lemma ClosedPreserves(h: History, r: RunId, error: int, at: int, fails: bool)
    requires Inv(h) && OwnOpenRun(h.db, r)
    requires forall i | 0 <= i < |h.log| :: h.log[i].run < r
    ensures var (b, outcome) := CloseFailed(h.db, r, error, at, fails); Inv(History(b, h.log + Logged(b, r, outcome)))
  {
    var (b, outcome) := CloseFailed(h.db, r, error, at, fails);
    if !fails && at >= h.db.runs[r].started {
      CloseFinalizes(h.db, r, error, at, fails);
      AppendPreserves(h, b, Entry(r, b.runs[r], None));
    } else {
      assert h.log + [] == h.log;
    }
  }

  lemma FailurePreserves(h: History, r: RunId, s: Source, payloadEnabled: bool, at: int)
    requires Inv(h) && OwnOpenRun(h.db, r)
    requires forall i | 0 <= i < |h.log| :: h.log[i].run < r
    ensures var b := FinishWithoutMetrics(h.db, r, s, payloadEnabled, at);
      Inv(History(b, h.log + Logged(b, r, WithoutMetrics)))
  {
    var b := FinishWithoutMetrics(h.db, r, s, payloadEnabled, at);
    FailureFinalizes(h.db, r, s, payloadEnabled, at);
    AppendPreserves(h, b, Entry(r, b.runs[r], None));
  }

  lemma CapturedPreserves(h: History, c: Capture, newId: Epoch, payloadEnabled: bool)
    requires Inv(h) && OwnOpenRun(h.db, c.run) && CaptureOk(c)
    requires forall i | 0 <= i < |h.log| :: h.log[i].run < c.run
    requires FreshEpoch(h.log, newId) && Linked(h.log, c, newId)
    ensures var b := Insert(h.db, c, payloadEnabled); Inv(History(b, h.log + Logged(b, c.run, Captured(c))))
  {
    var b := Insert(h.db, c, payloadEnabled);
    var e := Entry(c.run, b.runs[c.run], Some(c));
    InsertFinalizes(h.db, c, payloadEnabled);
    LinksFollow(h.log, e, newId);
    AppendPreserves(h, b, e);
  }

  /** A capture that passes the last checks meets the writer's contract. */
  ghost predicate Storable(db: Db, c: Capture, clock: Clock) {
    EpochOk(db, c) && c.end <= clock.finished ==> CaptureOk(c)
  }

  lemma CompleteCapturePreserves(h: History, c: Capture, newId: Epoch, payloadEnabled: bool, clock: Clock, f: Failure)
    requires Inv(h) && OwnOpenRun(h.db, c.run) && c.base.Keys <= c.rows.Keys && Storable(h.db, c, clock)
    requires forall i | 0 <= i < |h.log| :: h.log[i].run < c.run
    requires FreshEpoch(h.log, newId) && Linked(h.log, c, newId)
    ensures var (b, outcome) := CompleteCapture(h.db, c, payloadEnabled, clock, f);
      Inv(History(b, h.log + Logged(b, c.run, outcome)))
  {
    if !EpochOk(h.db, c) || clock.finished < c.end || clock.finished < h.db.runs[c.run].started {
      ClosedPreserves(h, c.run, INTERNAL_ERROR, clock.closing, f.closingFails);
    } else if f.stage.Some? {
      ClosedPreserves(h, c.run, f.error, clock.closing, f.closingFails);
    } else {
      CapturedPreserves(h, c, newId, payloadEnabled);
    }
  }

  lemma CompleteFailurePreserves(h: History, r: RunId, s: Source, payloadEnabled: bool, clock: Clock, f: Failure)
    requires Inv(h) && OwnOpenRun(h.db, r)
    requires forall i | 0 <= i < |h.log| :: h.log[i].run < r
    ensures var (b, outcome) := CompleteWithoutMetrics(h.db, r, payloadEnabled, s, clock, f);
      Inv(History(b, h.log + Logged(b, r, outcome)))
  {
    if clock.finished < h.db.runs[r].started {
      ClosedPreserves(h, r, CHECK_VIOLATION, clock.closing, f.closingFails);
    } else if f.stage.Some? {
      ClosedPreserves(h, r, f.error, clock.closing, f.closingFails);
    } else {
      FailurePreserves(h, r, s, payloadEnabled, clock.finished);
    }
  }

  lemma AnalysedMeetsContract(db: Db, r: RunId, started: int, policy: Policy, s: Source, newId: Epoch, clock: Clock)
    requires Consistent(db) && OwnOpenRun(db, r)
    requires PolicyOk(policy) && s.complete && SourceOk(s, started, clock.checked)
    ensures Storable(db, Analyse(db, r, started, policy, s, newId, clock), clock)
  {
    var c := Analyse(db, r, started, policy, s, newId, clock);
    if EpochOk(db, c) && c.end <= clock.finished {
      WriterContract(db, r, started, policy, s, newId, clock);
    }
  }

  lemma CompletePreserves(h: History, r: RunId, policy: Policy, s: Source, newId: Epoch, clock: Clock, f: Failure,
                          h': History)
    requires Inv(h) && Step(h, CompleteWait(r, policy, s, newId, clock, f), h')
    ensures Inv(h')
  {
    if f.stage != Some(BeforeOwnRun) && OwnOpenRun(h.db, r) {
      NewerThanLog(h, r);
      if f.stage == Some(BeforeChecks) {
        ClosedPreserves(h, r, f.error, clock.closing, f.closingFails);
      } else if !PolicyOk(policy) || !SourceOk(s, h.db.runs[r].started, clock.checked) {
        ClosedPreserves(h, r, CONTRACT_ERROR, clock.closing, f.closingFails);
      } else if !s.complete {
        CompleteFailurePreserves(h, r, s, policy.payloadEnabled, clock, f);
      } else {
        AnalysedMeetsContract(h.db, r, h.db.runs[r].started, policy, s, newId, clock);
        CaptureLinks(h, r, h.db.runs[r].started, policy, s, newId, clock);
        CompleteCapturePreserves(h, Analyse(h.db, r, h.db.runs[r].started, policy, s, newId, clock), newId,
                                 policy.payloadEnabled, clock, f);
      }
    } else {
      assert h.log + [] == h.log;
    }
  }

  /** Every step keeps the invariant. */
  lemma StepPreserves(h: History, act: Action, h': History)
    requires Inv(h) && Step(h, act, h')
    ensures Inv(h') && h.log <= h'.log
  {
    match act
    case PrepareWait(now) => PreparePreserves(h, now, h');
    case CompleteWait(r, policy, s, newId, clock, f) => CompletePreserves(h, r, policy, s, newId, clock, f, h');
    case Purge(rawCut, payloadCut) => PurgePreserves(h, rawCut, payloadCut, h');
    case OtherCollector => OtherPreserves(h, h');
  }

  /** Every state of every history of captures, purges and other collectors
    * meets the invariant. */
  lemma {:induction false} TraceInv(trace: seq<History>, acts: seq<Action>, i: nat)
    requires IsTrace(trace, acts) && i < |trace|
    ensures Inv(trace[i])
  {
    if i == 0 {
      InitialInv(trace[0]);
    } else {
      TraceInv(trace, acts, i - 1);
      assert Step(trace[i - 1], acts[i - 1], trace[i - 1 + 1]);
      StepPreserves(trace[i - 1], acts[i - 1], trace[i]);
    }
  }

  lemma ReachableInv(h: History)
    requires Reachable(h)
    ensures Inv(h)
  {
    var trace, acts :| IsTrace(trace, acts) && h in trace;
    var i :| 0 <= i < |trace| && trace[i] == h;
    TraceInv(trace, acts, i);
  }

  // ---------- epochs are unbroken, growing, monotone chains ----------

  ghost predicate SameEpoch(log: seq<Entry>, i: nat, j: nat)
    requires i < |log| && j < |log|
  {
    EpochOf(log[i]).Some? && EpochOf(log[i]) == EpochOf(log[j])
  }

  /** `b` continues `a`: same epoch and engine, a later window, `a` as named
    * predecessor and whole base, no type lost and no counter decreased. */
  ghost predicate Continues(a: Entry, b: Entry) {
    && a.capture.Some? && b.capture.Some? && EpochOf(a) == EpochOf(b)
    && b.capture.value.decision == RetainContext
    && b.capture.value.previous == Some(a.run)
    && b.capture.value.engine == a.capture.value.engine
    && a.capture.value.end <= b.capture.value.start
    && b.capture.value.base == a.capture.value.rows
    && Grows(a.capture.value.rows, b.capture.value.rows) && b.capture.value.run == b.run
    && b.capture.value.base.Keys <= b.capture.value.rows.Keys
  }

  ghost predicate Grows(a: map<WaitType, Counters>, b: map<WaitType, Counters>) {
    forall t | t in a :: t in b && b[t].AtLeast(a[t])
  }

  lemma EpochStep(log: seq<Entry>, i: nat, j: nat)
    requires LogOk(log) && i < j < |log| && SameEpoch(log, i, j)
    ensures Continues(log[j - 1], log[j])
  {
    assert LinkOk(log, j) && EntryOk(log[j]);
  }

  /** An entry that shares its epoch with an earlier one continues its predecessor. */
  ghost predicate EpochLinks(log: seq<Entry>) {
    forall i, j | 0 <= i < j < |log| && SameEpoch(log, i, j) :: Continues(log[j - 1], log[j])
  }

  lemma LogHasEpochLinks(log: seq<Entry>)
    requires LogOk(log)
    ensures EpochLinks(log)
  {
    forall i, j | 0 <= i < j < |log| && SameEpoch(log, i, j) ensures Continues(log[j - 1], log[j]) {
      EpochStep(log, i, j);
    }
  }

  /** Runs sharing an epoch are consecutive finalized captures, each continuing
    * the one before it. */
  lemma {:induction false} EpochChain(log: seq<Entry>, i: nat, j: nat, k: nat)
    requires i < k <= j < |log| && EpochLinks(log) && SameEpoch(log, i, j)
    ensures SameEpoch(log, i, k) && Continues(log[k - 1], log[k])
    decreases j
  {
    if k < j {
      EpochChain(log, i, j - 1, k);
    }
  }

  lemma GrowsTransitive(a: map<WaitType, Counters>, b: map<WaitType, Counters>, c: map<WaitType, Counters>)
    requires Grows(a, b) && Grows(b, c)
    ensures Grows(a, c)
  {
    forall t | t in a ensures t in c && c[t].AtLeast(a[t]) {
      assert b[t].AtLeast(a[t]) && c[t].AtLeast(b[t]);
    }
  }

  /** Along an epoch the written types only grow and no counter decreases. */
  lemma {:induction false} EpochMonotone(log: seq<Entry>, i: nat, j: nat)
    requires i <= j < |log| && EpochLinks(log) && SameEpoch(log, i, j)
    ensures Grows(log[i].capture.value.rows, log[j].capture.value.rows)
    decreases j
  {
    if i < j {
      EpochMonotone(log, i, j - 1);
      GrowsTransitive(log[i].capture.value.rows, log[j - 1].capture.value.rows, log[j].capture.value.rows);
    }
  }

  /** The delta candidate a capture stored for a type and metric, 0 if none. */
  ghost function StoredDelta(e: Entry, t: WaitType, m: Metric): int {
    if e.capture.Some? && e.capture.value.base.Keys <= e.capture.value.rows.Keys
       && TypeKey(e.run, t, m) in SamplesOf(e.capture.value)
       && SamplesOf(e.capture.value)[TypeKey(e.run, t, m)].value.Bigint? then
      SamplesOf(e.capture.value)[TypeKey(e.run, t, m)].value.n
    else 0
  }

  ghost function DeltaSum(log: seq<Entry>, i: nat, j: nat, t: WaitType, m: Metric): int
    requires i <= j < |log|
    decreases j
  {
    if i == j then 0 else DeltaSum(log, i, j - 1, t, m) + StoredDelta(log[j], t, m)
  }

  /** What one continuation stored is the change it made, and not negative. */
  lemma DeltaOf(a: Entry, b: Entry, t: WaitType, m: Metric)
    requires Continues(a, b) && t in a.capture.value.rows && m.IsDelta()
    ensures t in b.capture.value.rows
    ensures StoredDelta(b, t, m) == Difference(b.capture.value.rows[t], a.capture.value.rows[t], m) >= 0
  {
    assert Stores(b.capture.value, TypeKey(b.run, t, m));
  }

  /** Along an epoch the stored delta candidates of a type telescope to the last
    * stored value minus the first. */
  lemma {:induction false} DeltasTelescope(log: seq<Entry>, i: nat, j: nat, t: WaitType, m: Metric)
    requires i <= j < |log| && EpochLinks(log) && SameEpoch(log, i, j) && m.IsDelta()
    requires t in log[i].capture.value.rows
    ensures t in log[j].capture.value.rows
    ensures DeltaSum(log, i, j, t, m) == Difference(log[j].capture.value.rows[t], log[i].capture.value.rows[t], m)
    decreases j
  {
    if i < j {
      DeltasTelescope(log, i, j - 1, t, m);
      DeltaOf(log[j - 1], log[j], t, m);
    }
  }

  /** In every reachable state, for any two logged runs of one epoch: every run
    * between them is a capture continuing its predecessor, types and counters
    * only grow, and the stored deltas telescope. */
  lemma EpochsOfEveryHistory(h: History, i: nat, j: nat)
    requires Reachable(h) && i <= j < |h.log| && SameEpoch(h.log, i, j)
    ensures forall k | i < k <= j :: SameEpoch(h.log, i, k) && Continues(h.log[k - 1], h.log[k])
    ensures Grows(h.log[i].capture.value.rows, h.log[j].capture.value.rows)
    ensures forall t, m: Metric | t in h.log[i].capture.value.rows && m.IsDelta() ::
      DeltaSum(h.log, i, j, t, m) == Difference(h.log[j].capture.value.rows[t], h.log[i].capture.value.rows[t], m)
  {
    ReachableInv(h);
    var log := h.log;
    LogHasEpochLinks(log);
    forall k | i < k <= j ensures SameEpoch(log, i, k) && Continues(log[k - 1], log[k]) {
      EpochChain(log, i, j, k);
    }
    EpochMonotone(log, i, j);
    forall t, m: Metric | t in log[i].capture.value.rows && m.IsDelta()
      ensures DeltaSum(log, i, j, t, m) == Difference(log[j].capture.value.rows[t], log[i].capture.value.rows[t], m)
    {
      DeltasTelescope(log, i, j, t, m);
    }
  }

  /** In every reachable state the newest finalized Wait run still has its row,
    * whatever was purged, and it is what the next capture compares with. */
  lemma NewestRunSurvivesEveryHistory(h: History, r: RunId)
    requires Reachable(h) && h.log != [] && OlderFinalized(h.db, r)
    ensures var newest := h.log[|h.log| - 1];
      && newest.run in h.db.runs && h.db.runs[newest.run] == newest.row && Fence(h.db, newest.run)
      && LatestFinalized(h.db, r) == Some(newest.run)
  {
    ReachableInv(h);
    NewestIsFence(h);
    PredecessorIsNewest(h, r);
    assert EntryHeld(h.db, h.log[|h.log| - 1]);
  }

  /** The completion of run `r` reaches the analysis and retains the epoch. */
  predicate Retains(db: Db, r: RunId, started: int, policy: Policy, s: Source, newId: Epoch, clock: Clock) {
    && PolicyOk(policy) && s.complete && SourceOk(s, started, clock.checked)
    && Analyse(db, r, started, policy, s, newId, clock).decision == RetainContext
  }

  /** The source is valid, and the newest run is a capture that it follows on. */
  ghost predicate RetainsAfter(db: Db, newest: Entry, started: int, policy: Policy, s: Source, clock: Clock) {
    && PolicyOk(policy) && s.complete && SourceOk(s, started, clock.checked)
    && newest.capture.Some? && RetainsExactly(db, newest.capture.value, policy, s)
  }

  lemma RetentionOf(db: Db, newest: Entry, r: RunId, started: int, policy: Policy, s: Source, newId: Epoch,
                    clock: Clock)
    requires Consistent(db) && NewestHeld(db, newest) && LatestFinalized(db, r) == Some(newest.run)
    ensures Retains(db, r, started, policy, s, newId, clock) == RetainsAfter(db, newest, started, policy, s, clock)
  {
    if PolicyOk(policy) && s.complete && SourceOk(s, started, clock.checked) {
      if newest.capture.Some? {
        RetainCondition(db, r, newest.capture.value, started, policy, s, newId, clock);
      } else {
        FailedBreaksEpoch(db, newest, r, started, policy, s, newId, clock);
      }
    }
  }

  /** In every reachable state the next capture retains the epoch of the newest
    * capture under exactly the conditions of `RetainsExactly`; a failed newest
    * run is never continued. */
  lemma RetentionInEveryHistory(h: History, r: RunId, started: int, policy: Policy, s: Source, newId: Epoch,
                                clock: Clock)
    requires Reachable(h) && h.log != [] && OlderFinalized(h.db, r)
    ensures Retains(h.db, r, started, policy, s, newId, clock)
         == RetainsAfter(h.db, h.log[|h.log| - 1], started, policy, s, clock)
  {
    ReachableInv(h);
    NewestIsHeld(h);
    PredecessorIsNewest(h, r);
    RetentionOf(h.db, h.log[|h.log| - 1], r, started, policy, s, newId, clock);
  }
}
