/** How every completion of a Wait run ends. */
module SnapshotEnding {
  import opened Common
  import opened SnapshotTables
  import opened SnapshotCapture
  import opened SnapshotDecision
  import opened SnapshotStore
  import opened SnapshotHistory
  import opened SnapshotOutcome

  // ---------- what is asked of run, policy and source ----------

  /** A running Wait run to which nothing has been written. */
  ghost predicate OpenRow(db: Db, r: RunId) {
    && r in db.runs
    && db.runs[r] == Run(WaitStats, db.runs[r].started, None, Running, db.runs[r].error, None, 0, 0)
    && (forall k | k in db.samples :: k.run != r) && (forall p | p in db.payloads :: db.payloads[p].run != r)
    && (forall k | k in db.modules :: k.run != r)
  }

  lemma OpenRowIsOwn(db: Db, r: RunId)
    ensures OpenRow(db, r) == OwnOpenRun(db, r)
  {
  }

  predicate PolicySound(p: Policy) {
    p.enabled && p.maxRows >= 1 && p.maxRows <= 100000
  }

  /** What any source must meet, whether it succeeded or not. */
  predicate FieldsSound(s: Source) {
    && (s.start.None? || s.end.Some?) && (s.end.None? || s.start.Some?)
    && (s.start.Some? && s.end.Some? ==> !(s.end.value < s.start.value))
    && (s.error == None || s.error.value >= 1)
    && (s.engine == None || (s.engine.value.serverName != [] && |s.engine.value.serverName| <= 128))
    && forall i, j | 0 <= i < |s.waits| && 0 <= j < |s.waits| && i != j :: s.waits[i].waitType != s.waits[j].waitType
  }

  /** A source that read all wait types within the run. */
  predicate CompleteSound(s: Source, started: int, now: int) {
    && s.complete && s.error == None && !s.message && s.engine.Some?
    && s.start.Some? && s.end.Some? && started <= s.start.value && s.end.value <= now
    && s.nativeRows == Some(|s.waits|)
    && ((s.status == SourceAvailable && s.waits != [] && !s.partial)
        || (s.status == SourceEmpty && s.waits == [] && s.partial))
  }

  /** A source that failed and hands over no rows. */
  predicate FailedSound(s: Source) {
    && !s.complete && s.partial && s.waits == [] && s.nativeRows == None
    && (s.status == SourceDenied || s.status == SourceMissing || s.status == SourceError)
  }

  predicate SourceSound(s: Source, started: int, now: int) {
    FieldsSound(s) && (CompleteSound(s, started, now) || FailedSound(s))
  }

  lemma DistinctEitherWay(waits: seq<WaitRow>)
    ensures DistinctTypes(waits) ==
      forall i, j | 0 <= i < |waits| && 0 <= j < |waits| && i != j :: waits[i].waitType != waits[j].waitType
  {
    if DistinctTypes(waits) {
      forall i, j | 0 <= i < |waits| && 0 <= j < |waits| && i != j ensures waits[i].waitType != waits[j].waitType {
        assert i < j || j < i;
      }
    }
  }

  lemma SourceSoundExactly(s: Source, started: int, now: int)
    ensures SourceSound(s, started, now) == SourceOk(s, started, now)
  {
    DistinctEitherWay(s.waits);
  }

  // ---------- the ending ----------

  /** The identifier is zero, or it is to begin an epoch but is the predecessor's. */
  ghost predicate EpochRefused(db: Db, c: Capture) {
    || c.epoch == 0
    || (c.decision != RetainContext && c.previous.Some? && c.previous.value in db.runs
        && db.runs[c.previous.value].epoch == Some(c.epoch))
  }

  /** The error a sound complete source ends with, if any. */
  ghost function CaptureError(db: Db, c: Capture, clock: Clock, f: Failure): Option<int> {
    if EpochRefused(db, c) || clock.finished < c.end || clock.finished < c.started then Some(53766)
    else if f.stage.Some? then Some(f.error) else None
  }

  /** The error a sound failed source ends with, if any. */
  ghost function FailureError(started: int, clock: Clock, f: Failure): Option<int> {
    if clock.finished < started then Some(547) else if f.stage.Some? then Some(f.error) else None
  }

  /** The error a completion of an open run ends with, if any. */
  ghost function EndError(db: Db, r: RunId, policy: Policy, s: Source, newId: Epoch, clock: Clock, f: Failure)
    : Option<int>
    requires OpenRow(db, r)
  {
    var started := db.runs[r].started;
    if f.stage == Some(BeforeChecks) then Some(f.error)
    else if !PolicySound(policy) || !SourceSound(s, started, clock.checked) then Some(53763)
    else
      SourceSoundExactly(s, started, clock.checked);
      if s.complete then CaptureError(db, Analyse(db, r, started, policy, s, newId, clock), clock, f)
      else FailureError(started, clock, f)
  }

  lemma CaptureEnds(db: Db, c: Capture, payloadEnabled: bool, clock: Clock, f: Failure)
    requires c.run in db.runs && c.started == db.runs[c.run].started && c.base.Keys <= c.rows.Keys
    ensures CompleteCapture(db, c, payloadEnabled, clock, f) ==
      match CaptureError(db, c, clock, f)
      case Some(error) => CloseFailed(db, c.run, error, clock.closing, f.closingFails)
      case None => (Insert(db, c, payloadEnabled), Captured(c))
  {
  }

  lemma FailureEnds(db: Db, r: RunId, payloadEnabled: bool, s: Source, clock: Clock, f: Failure)
    requires r in db.runs
    ensures CompleteWithoutMetrics(db, r, payloadEnabled, s, clock, f) ==
      match FailureError(db.runs[r].started, clock, f)
      case Some(error) => CloseFailed(db, r, error, clock.closing, f.closingFails)
      case None => (FinishWithoutMetrics(db, r, s, payloadEnabled, clock.finished), WithoutMetrics)
  {
  }

  lemma OpenRunEnds(db: Db, r: RunId, policy: Policy, s: Source, newId: Epoch, clock: Clock, f: Failure)
    requires f.stage != Some(BeforeOwnRun) && OpenRow(db, r)
    ensures Complete(db, r, policy, s, newId, clock, f) ==
      match EndError(db, r, policy, s, newId, clock, f)
      case Some(error) => CloseFailed(db, r, error, clock.closing, f.closingFails)
      case None => if s.complete then CapturedAs(db, r, policy, s, newId, clock)
                   else (FinishWithoutMetrics(db, r, s, policy.payloadEnabled, clock.finished), WithoutMetrics)
  {
    OpenRowIsOwn(db, r);
    var started := db.runs[r].started;
    SourceSoundExactly(s, started, clock.checked);
    if f.stage != Some(BeforeChecks) && PolicySound(policy) && SourceSound(s, started, clock.checked) {
      if s.complete {
        NewEpochFacts(db, r, started, policy, s, newId, clock);
        CaptureEnds(db, Analyse(db, r, started, policy, s, newId, clock), policy.payloadEnabled, clock, f);
      } else {
        FailureEnds(db, r, policy.payloadEnabled, s, clock, f);
      }
    }
  }

  /** The stored capture, if the source is complete and sound. */
  ghost function CapturedAs(db: Db, r: RunId, policy: Policy, s: Source, newId: Epoch, clock: Clock): (Db, Outcome)
    requires r in db.runs
  {
    var started := db.runs[r].started;
    SourceSoundExactly(s, started, clock.checked);
    if PolicySound(policy) && s.complete && SourceSound(s, started, clock.checked) then
      var c := Analyse(db, r, started, policy, s, newId, clock);
      (Insert(db, c, policy.payloadEnabled), Captured(c))
    else (db, NotOwnRun)
  }

  /** Every completion ends in one of these ways: refused or not its own run, with
    * the tables unchanged; closed under the first error that arises; a stored capture
    * of a complete source; or a run without metrics of a failed one. */
  lemma CompletionEnds(db: Db, r: RunId, policy: Policy, s: Source, newId: Epoch, clock: Clock, f: Failure)
    ensures Complete(db, r, policy, s, newId, clock, f) ==
      if f.stage == Some(BeforeOwnRun) then (db, Refused(f.error))
      else if !OpenRow(db, r) then (db, NotOwnRun)
      else
        match EndError(db, r, policy, s, newId, clock, f)
        case Some(error) => CloseFailed(db, r, error, clock.closing, f.closingFails)
        case None => if s.complete then CapturedAs(db, r, policy, s, newId, clock)
                     else (FinishWithoutMetrics(db, r, s, policy.payloadEnabled, clock.finished), WithoutMetrics)
  {
    if f.stage != Some(BeforeOwnRun) && OpenRow(db, r) {
      OpenRunEnds(db, r, policy, s, newId, clock, f);
    } else {
      OpenRowIsOwn(db, r);
    }
  }

  lemma NewestEpoch(h: History, e: Entry)
    ensures Inv(h) && h.log != [] && e == h.log[|h.log| - 1] ==>
            e.run in h.db.runs && h.db.runs[e.run].epoch == EpochOf(e) && EpochOf(e) != Some(0)
  {
    if Inv(h) && h.log != [] && e == h.log[|h.log| - 1] {
      assert EntryHeld(h.db, e) && EntryOk(e);
    }
  }

  /** In every reachable state a fresh identifier other than zero is never refused:
    * no accepted source fails for its epoch. */
  lemma FreshEpochsAreTaken(h: History, r: RunId, started: int, policy: Policy, s: Source, newId: Epoch, clock: Clock)
    requires Reachable(h) && OlderFinalized(h.db, r) && FreshEpoch(h.log, newId) && newId != 0
    requires PolicyOk(policy) && s.complete && SourceOk(s, started, clock.checked)
    ensures !EpochRefused(h.db, Analyse(h.db, r, started, policy, s, newId, clock))
  {
    var newest := Newest(h.log);
    ReachableInv(h);
    ReachablePrecedes(h, r);
    NextTakes(h.db, newest, r, started, policy, s, newId, clock);
    NextConcludes(h.db, newest, r, started, policy, s, newId, clock);
    if h.log != [] {
      NewestEpoch(h, h.log[|h.log| - 1]);
      assert EpochOf(h.log[|h.log| - 1]) != Some(newId);
    }
  }
}
