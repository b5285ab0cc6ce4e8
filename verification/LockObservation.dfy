/** The observer that freezes evidence when a lock time-out is reported. */
module LockObservation {
  import opened Common
  import opened TextOps
  import opened UtcKeys

  datatype MarkerKind = Begin | Case | After | End

  datatype Marker = Marker(
    kind: MarkerKind, suite: string, site: string, ordinal: nat, utc: string, spid: nat,
    lockTimeout: int, variant: string)

  /** What a line of the message stream is recognized as. */
  datatype Line = Mark(item: Marker) | Message(number: string) | TableOutput | Other | Blank

  /** A sampled request or lock; `detail` stands for the fields nothing reads. */
  datatype Row =
    | Request(session: int, blocking: int, waitType: string, detail: nat)
    | Lock(session: int, status: string, resource: seq<string>, detail: nat)

  datatype Sample = Sample(clock: real, serverUtc: string, phase: Option<Marker>, rows: seq<Row>, truncated: bool)

  datatype Trigger = TableExportLockTimeout | SqlError1222

  datatype Frozen = Frozen(phase: Option<Marker>, samples: seq<Sample>, trigger: Trigger)

  datatype Error = InvalidServerTime | ObservationFailed | ObserverError(code: nat) | ArtifactSizeLimit
                 | DeploymentBeginNotObserved | DeploymentPhaseNotObserved

  datatype Status = No1222 | BlockerObserved | BlockerNotCaptured

  const WINDOW: real := 10.0
  const KEPT_SAMPLES: nat := 40
  const MAX_ROWS: nat := 200

  // ---------- attributing samples ----------

  predicate Blocking(row: Row, spid: int) {
    row.Request? && row.session == spid && row.blocking > 0 && StartsWith(row.waitType, "LCK_")
  }

  ghost predicate ShowsBlocker(sample: Sample, spid: int) {
    exists i | 0 <= i < |sample.rows| :: Blocking(sample.rows[i], spid)
  }

  /** The phase is shown by a sample attributed to it. */
  ghost predicate ObservedBlocker(samples: seq<Sample>, phase: Marker) {
    exists i | 0 <= i < |samples| :: samples[i].phase == Some(phase) && ShowsBlocker(samples[i], phase.spid)
  }

  predicate SameSession(sample: Sample, phase: Marker, now: real) {
    now - sample.clock <= WINDOW && sample.phase.Some? && sample.phase.value.spid == phase.spid
  }

  function Attribute(sample: Sample, phase: Marker, start: string): Sample {
    sample.(phase := if Less(start, sample.serverUtc) then Some(phase) else None)
  }

  function Attributed(samples: seq<Sample>, phase: Marker, start: string, now: real): seq<Sample> {
    if samples == [] then []
    else
      var rest := Attributed(samples[1..], phase, start, now);
      if SameSession(samples[0], phase, now) then [Attribute(samples[0], phase, start)] + rest else rest
  }

  /** None when the phase's own timestamp is invalid. */
  function CaseSamples(samples: seq<Sample>, phase: Option<Marker>, now: real): Option<seq<Sample>> {
    match phase
    case None => Some([])
    case Some(c) =>
      match UtcKey(c.utc)
      case None => None
      case Some(start) => Some(Attributed(samples, c, start, now))
  }

  // ---------- the transitions ----------

  datatype State = State(
    phase: Option<Marker>, samples: seq<Sample>, frozen: Option<Frozen>, tableError: Option<Option<Marker>>,
    errors: seq<Error>, started: Option<real>, deploymentSession: Option<nat>, phaseSeen: bool)

  const INITIAL := State(None, [], None, None, [], None, None, false)

  datatype Event =
    | Fed(line: Line, now: real)
    | Sampled(clock: real, utc: string, phase: Marker, rows: seq<Row>)
    | Failed(code: nat)

  predicate DeploymentPhase(m: Marker, session: Option<nat>) {
    m.suite == "DEPLOYMENT" && m.kind == Case && m.site == "SnapshotSchema" && session == Some(m.spid)
  }

  function Marked(s: State, m: Marker, now: real): State {
    var session := if m.suite == "DEPLOYMENT" && m.kind == Begin then Some(m.spid) else s.deploymentSession;
    var reached := DeploymentPhase(m, session);
    s.(phase := if m.kind == End then None else Some(m),
       deploymentSession := session,
       phaseSeen := s.phaseSeen || reached,
       started := if s.started.None? && m.kind != End && (m.suite != "DEPLOYMENT" || reached) then Some(now)
                  else s.started,
       tableError := None)
  }

  function Freeze(s: State, phase: Option<Marker>, trigger: Trigger, now: real): State {
    if s.frozen.Some? then s
    else
      match CaseSamples(s.samples, phase, now)
      case Some(samples) => s.(frozen := Some(Frozen(phase, samples, trigger)))
      case None => s.(frozen := Some(Frozen(phase, [], trigger)), errors := s.errors + [InvalidServerTime])
  }

  function Feed(s: State, line: Line, now: real): State {
    match line
    case Mark(m) => Marked(s, m, now)
    case Message(number) =>
      var pending := s.(tableError := if number == "51010" then Some(s.phase) else None);
      if number == "1222" then Freeze(pending, s.phase, SqlError1222, now) else pending
    case TableOutput =>
      var cleared := s.(tableError := None);
      if s.tableError.Some? then Freeze(cleared, s.tableError.value, TableExportLockTimeout, now) else cleared
    case Other => s.(tableError := None)
    case Blank => s
  }

  /** The newest samples that fit the buffer. */
  function Newest(samples: seq<Sample>): seq<Sample> {
    if |samples| <= KEPT_SAMPLES then samples else samples[|samples| - KEPT_SAMPLES..]
  }

  function Taken(clock: real, key: string, phase: Marker, rows: seq<Row>): Sample {
    Sample(clock, key, Some(phase), if |rows| <= MAX_ROWS then rows else rows[..MAX_ROWS], |rows| > MAX_ROWS)
  }

  function Step(s: State, e: Event): State {
    match e
    case Fed(line, now) => Feed(s, line, now)
    case Failed(code) => s.(errors := s.errors + [ObserverError(code)])
    case Sampled(clock, utc, sampledPhase, rows) =>
      match UtcKey(utc)
      case Some(key) => s.(samples := Newest(s.samples + [Taken(clock, key, sampledPhase, rows)]))
      case None => s.(errors := s.errors + [ObservationFailed])
  }

  function Run(es: seq<Event>): State {
    if es == [] then INITIAL else Step(Run(es[..|es| - 1]), es[|es| - 1])
  }

  datatype Report = Report(
    status: Status, trigger: Option<Trigger>, phase: Option<Marker>, samples: seq<Sample>, errors: seq<Error>,
    truncated: bool)

  function FinishErrors(s: State, deploymentExpected: bool): seq<Error> {
    s.errors
    + (if deploymentExpected && s.deploymentSession.None? then [DeploymentBeginNotObserved] else [])
    + (if (deploymentExpected || s.deploymentSession.Some?) && !s.phaseSeen then [DeploymentPhaseNotObserved] else [])
  }

  ghost predicate Found(f: Frozen) {
    f.phase.Some? && ObservedBlocker(f.samples, f.phase.value)
  }

  ghost function Finish(s: State, deploymentExpected: bool): Report {
    var errors := FinishErrors(s, deploymentExpected);
    match s.frozen
    case None => Report(No1222, None, None, [], errors, false)
    case Some(f) =>
      FrozenReport(f, Found(f), errors)
  }

  function FrozenReport(f: Frozen, found: bool, errors: seq<Error>): Report {
    Report(if found then BlockerObserved else BlockerNotCaptured, Some(f.trigger), f.phase, f.samples, errors,
           exists i | 0 <= i < |f.samples| :: f.samples[i].truncated)
  }

  class Observation {
    const deploymentExpected: bool
    var phase: Option<Marker>
    var samples: seq<Sample>
    var frozen: Option<Frozen>
    var tableError: Option<Option<Marker>>
    var errors: seq<Error>
    var started: Option<real>
    var deploymentSession: Option<nat>
    var phaseSeen: bool

    function Contents(): State
      reads this
    {
      State(phase, samples, frozen, tableError, errors, started, deploymentSession, phaseSeen)
    }

    constructor (deploymentExpected: bool)
      ensures Contents() == INITIAL && this.deploymentExpected == deploymentExpected
    {
      this.deploymentExpected := deploymentExpected;
      phase, samples, frozen, tableError := None, [], None, None;
      errors, started, deploymentSession, phaseSeen := [], None, None, false;
    }

    method Observe(line: Line, now: real)
      modifies this
      ensures Contents() == Feed(old(Contents()), line, now)
    {
      if line.Mark? {
        var m := line.item;
        phase := if m.kind == End then None else Some(m);
        if m.suite == "DEPLOYMENT" && m.kind == Begin {
          deploymentSession := Some(m.spid);
        }
        var reached := DeploymentPhase(m, deploymentSession);
        if reached {
          phaseSeen := true;
        }
        if started.None? && m.kind != End && (m.suite != "DEPLOYMENT" || reached) {
          started := Some(now);
        }
      }
      if line.Message? {
        tableError := if line.number == "51010" then Some(phase) else None;
      }
      var pending := tableError;
      var direct := line == Message("1222");
      var table := pending.Some? && line.TableOutput?;
      if !line.Message? && !line.Blank? {
        tableError := None;
      }
      if (direct || table) && frozen.None? {
        var blocked := if table then pending.value else phase;
        var attributed := CaseSamples(samples, blocked, now);
        if attributed.None? {
          errors := errors + [InvalidServerTime];
        }
        frozen := Some(Frozen(blocked, if attributed.Some? then attributed.value else [],
                              if table then TableExportLockTimeout else SqlError1222));
      }
    }

    method Append(clock: real, utc: string, sampledCase: Marker, rows: seq<Row>)
      modifies this
      ensures Contents() == Step(old(Contents()), Sampled(clock, utc, sampledCase, rows))
    {
      var key := UtcKey(utc);
      if key.None? {
        errors := errors + [ObservationFailed];
      } else {
        samples := Newest(samples + [Taken(clock, key.value, sampledCase, rows)]);
      }
    }

    method Close() returns (report: Report)
      modifies this`errors
      ensures report == Finish(old(Contents()), deploymentExpected)
      ensures errors == report.errors
    {
      if deploymentExpected && deploymentSession.None? {
        errors := errors + [DeploymentBeginNotObserved];
      }
      if (deploymentExpected || deploymentSession.Some?) && !phaseSeen {
        errors := errors + [DeploymentPhaseNotObserved];
      }
      if frozen.None? {
        return Report(No1222, None, None, [], errors, false);
      }
      var f := frozen.value;
      var found := false;
      if f.phase.Some? {
        found := FindBlocker(f.samples, f.phase.value);
      }
      report := FrozenReport(f, found, errors);
    }
  }

  /** The newest attributed samples are looked at first. */
  method FindBlocker(samples: seq<Sample>, phase: Marker) returns (found: bool)
    ensures found <==> ObservedBlocker(samples, phase)
  {
    for i := |samples| downto 0
      invariant forall k | i <= k < |samples| ::
        !(samples[k].phase == Some(phase) && ShowsBlocker(samples[k], phase.spid))
    {
      if samples[i].phase == Some(phase) {
        var rows := samples[i].rows;
        for j := 0 to |rows|
          invariant forall k | 0 <= k < j :: !Blocking(rows[k], phase.spid)
        {
          if Blocking(rows[j], phase.spid) {
            assert ShowsBlocker(samples[i], phase.spid);
            return true;
          }
        }
      }
    }
    found := false;
  }

  // ---------- what the run has seen ----------

  /** The phase announced last, if it has not ended. */
  function CurrentCase(es: seq<Event>): Option<Marker> {
    if es == [] then None
    else
      var e := es[|es| - 1];
      if e.Fed? && e.line.Mark? then if e.line.item.kind == End then None else Some(e.line.item)
      else CurrentCase(es[..|es| - 1])
  }

  /** The last line that is not blank. */
  function LastLine(es: seq<Event>): Option<Line> {
    if es == [] then None
    else
      var e := es[|es| - 1];
      if e.Fed? && !e.line.Blank? then Some(e.line) else LastLine(es[..|es| - 1])
  }

  /** Every sample that was stored, the oldest first. */
  function Stored(es: seq<Event>): seq<Sample> {
    if es == [] then []
    else
      var e, before := es[|es| - 1], Stored(es[..|es| - 1]);
      if e.Sampled? && UtcKey(e.utc).Some? then
        before + [Sample(e.clock, UtcKey(e.utc).value, Some(e.phase),
                         if |e.rows| > 200 then e.rows[..200] else e.rows, |e.rows| > 200)]
      else before
  }

  /** A time-out is reported directly, or by a table export whose error message was
    * the line before. */
  predicate TriggerAt(es: seq<Event>, i: nat) {
    i < |es| && es[i].Fed?
    && (es[i].line == Message("1222") || (es[i].line == TableOutput && LastLine(es[..i]) == Some(Message("51010"))))
  }

  predicate FirstTrigger(es: seq<Event>, i: nat) {
    TriggerAt(es, i) && forall k | 0 <= k < i :: !TriggerAt(es, k)
  }

  lemma {:induction false} RunPhase(es: seq<Event>)
    ensures Run(es).phase == CurrentCase(es)
  {
    if es != [] { RunPhase(es[..|es| - 1]); }
  }

  lemma {:induction false} RunTableError(es: seq<Event>)
    ensures Run(es).tableError == if LastLine(es) == Some(Message("51010")) then Some(CurrentCase(es)) else None
  {
    if es != [] {
      RunTableError(es[..|es| - 1]);
      RunPhase(es[..|es| - 1]);
    }
  }

  lemma FeedKeepsSamples(s: State, line: Line, now: real)
    ensures Feed(s, line, now).samples == s.samples
  {
  }

  lemma NewestOfNewest(samples: seq<Sample>, more: Sample)
    ensures Newest(Newest(samples) + [more]) == Newest(samples + [more])
  {
  }

  /** The buffer holds the newest samples of all that were stored. */
  lemma {:induction false} RunSamples(es: seq<Event>)
    ensures Run(es).samples == Newest(Stored(es))
  {
    if es != [] {
      var before, e := es[..|es| - 1], es[|es| - 1];
      RunSamples(before);
      if e.Fed? {
        FeedKeepsSamples(Run(before), e.line, e.now);
      } else if e.Sampled? && UtcKey(e.utc).Some? {
        NewestOfNewest(Stored(before), Taken(e.clock, UtcKey(e.utc).value, e.phase, e.rows));
      }
    }
  }

  lemma TriggersOfPrefix(es: seq<Event>, n: nat, i: nat)
    requires i < n <= |es|
    ensures TriggerAt(es[..n], i) == TriggerAt(es, i)
  {
    assert es[..n][..i] == es[..i];
  }

  lemma FirstTriggerOfPrefix(es: seq<Event>, n: nat, i: nat)
    requires FirstTrigger(es, i) && i < n <= |es|
    ensures FirstTrigger(es[..n], i) && es[..n][..i] == es[..i]
  {
    TriggersOfPrefix(es, n, i);
    forall k | 0 <= k < i ensures !TriggerAt(es[..n], k) {
      TriggersOfPrefix(es, n, k);
    }
  }

  lemma FreezesAt(before: seq<Event>, e: Event)
    requires Run(before).frozen.None? && FirstTrigger(before + [e], |before|)
    ensures Step(Run(before), e).frozen.Some?
  {
    assert (before + [e])[..|before|] == before;
    RunTableError(before);
  }

  lemma StepKeepsFrozen(s: State, e: Event)
    requires s.frozen.Some?
    ensures Step(s, e).frozen == s.frozen
  {
  }

  /** The frozen record is the one of the first trigger, whatever follows. */
  lemma {:induction false} FrozenAtFirstTrigger(es: seq<Event>, i: nat)
    requires FirstTrigger(es, i)
    ensures Run(es).frozen == Step(Run(es[..i]), es[i]).frozen && Run(es).frozen.Some?
    decreases |es|
  {
    var before, last := es[..|es| - 1], es[|es| - 1];
    if i < |es| - 1 {
      FirstTriggerOfPrefix(es, |es| - 1, i);
      FrozenAtFirstTrigger(before, i);
      StepKeepsFrozen(Run(before), last);
    } else {
      assert es[..i] == before && es == before + [last];
      NothingFrozen(before, es);
      FreezesAt(before, last);
    }
  }

  lemma {:induction false} NothingFrozen(before: seq<Event>, es: seq<Event>)
    requires before <= es && forall k | 0 <= k < |before| :: !TriggerAt(es, k)
    ensures Run(before).frozen.None?
    decreases |before|
  {
    if before != [] {
      var n := |before| - 1;
      NothingFrozen(before[..n], es);
      RunTableError(before[..n]);
      assert before[..n] == es[..n] && !TriggerAt(es, n);
    }
  }

  /** Once written, the frozen record never changes. */
  lemma {:induction false} FrozenIsFinal(es: seq<Event>, more: seq<Event>)
    requires Run(es).frozen.Some?
    ensures Run(es + more).frozen == Run(es).frozen
    decreases |more|
  {
    if more == [] {
      assert es + more == es;
    } else {
      var n := |more| - 1;
      FrozenIsFinal(es, more[..n]);
      assert (es + more)[..|es + more| - 1] == es + more[..n];
    }
  }

  lemma {:induction false} TriggerExists(es: seq<Event>, n: nat) returns (i: nat)
    requires n < |es| && TriggerAt(es, n)
    ensures i <= n && FirstTrigger(es, i)
  {
    if k: nat :| k < n && TriggerAt(es, k) {
      i := TriggerExists(es, k);
    } else {
      i := n;
    }
  }

  /** What was frozen, in terms of the events before the trigger alone. */
  lemma FrozenContents(es: seq<Event>, i: nat)
    requires FirstTrigger(es, i)
    ensures var f := Run(es).frozen;
      var samples := CaseSamples(Newest(Stored(es[..i])), CurrentCase(es[..i]), es[i].now);
      && f.Some? && f.value.phase == CurrentCase(es[..i])
      && f.value.samples == (if samples.Some? then samples.value else [])
      && f.value.trigger == (if es[i].line == Message("1222") then SqlError1222 else TableExportLockTimeout)
  {
    FrozenAtFirstTrigger(es, i);
    RunPhase(es[..i]);
    RunTableError(es[..i]);
    RunSamples(es[..i]);
    NothingFrozen(es[..i], es);
  }

  // ---------- when a blocker is reported ----------

  /** A stored sample that is evidence for a phase at a given moment. */
  ghost predicate Proves(sample: Sample, phase: Marker, now: real) {
    && now - sample.clock <= 10.0 && sample.phase.Some? && sample.phase.value.spid == phase.spid
    && Shaped(sample.serverUtc) && Shaped(phase.utc) && Earlier(TimeOf(phase.utc), TimeOf(sample.serverUtc))
    && ShowsBlocker(sample, phase.spid)
  }

  /** One of the newest stored samples is evidence for the phase. */
  ghost predicate Evidence(stored: seq<Sample>, phase: Option<Marker>, now: real) {
    && phase.Some? && UtcKey(phase.value.utc).Some?
    && exists k | |stored| - 40 <= k < |stored| && k >= 0 :: Proves(stored[k], phase.value, now)
  }

  ghost predicate KeysOk(samples: seq<Sample>) {
    forall k | 0 <= k < |samples| :: UtcKey(samples[k].serverUtc) == Some(samples[k].serverUtc)
  }

  lemma {:induction false} StoredKeysOk(es: seq<Event>)
    ensures KeysOk(Stored(es))
  {
    if es != [] {
      StoredKeysOk(es[..|es| - 1]);
      var e := es[|es| - 1];
      if e.Sampled? && UtcKey(e.utc).Some? {
        KeyIsStable(e.utc);
      }
    }
  }

  lemma LaterThanStart(sample: Sample, phase: Marker)
    requires UtcKey(phase.utc).Some? && UtcKey(sample.serverUtc) == Some(sample.serverUtc)
    ensures Shaped(sample.serverUtc) && Shaped(phase.utc)
    ensures Less(UtcKey(phase.utc).value, sample.serverUtc) <==> Earlier(TimeOf(phase.utc), TimeOf(sample.serverUtc))
  {
    KeyOrderIsChronological(phase.utc, sample.serverUtc);
  }

  ghost predicate AnyProves(samples: seq<Sample>, phase: Marker, now: real) {
    exists k | 0 <= k < |samples| :: Proves(samples[k], phase, now)
  }

  lemma AnyProvesFirst(samples: seq<Sample>, phase: Marker, now: real)
    requires samples != []
    ensures AnyProves(samples, phase, now) <==> Proves(samples[0], phase, now) || AnyProves(samples[1..], phase, now)
  {
    var rest := samples[1..];
    if k :| 0 <= k < |rest| && Proves(rest[k], phase, now) {
      assert samples[k + 1] == rest[k];
    }
    if k :| 1 <= k < |samples| && Proves(samples[k], phase, now) {
      assert rest[k - 1] == samples[k];
    }
  }

  lemma AnyProvesNewest(stored: seq<Sample>, phase: Marker, now: real)
    ensures AnyProves(Newest(stored), phase, now) <==>
      exists k | |stored| - KEPT_SAMPLES <= k < |stored| && k >= 0 :: Proves(stored[k], phase, now)
  {
    var newest := Newest(stored);
    var skipped := |stored| - |newest|;
    if k :| 0 <= k < |newest| && Proves(newest[k], phase, now) {
      assert Proves(stored[k + skipped], phase, now);
    }
    if k :| |stored| - KEPT_SAMPLES <= k < |stored| && k >= 0 && Proves(stored[k], phase, now) {
      assert newest[k - skipped] == stored[k];
    }
  }

  lemma {:induction false} AttributedProves(samples: seq<Sample>, phase: Marker, now: real)
    requires UtcKey(phase.utc).Some? && KeysOk(samples)
    ensures ObservedBlocker(Attributed(samples, phase, UtcKey(phase.utc).value, now), phase)
       <==> AnyProves(samples, phase, now)
  {
    if samples != [] {
      var start := UtcKey(phase.utc).value;
      var first, rest := samples[0], samples[1..];
      AttributedProves(rest, phase, now);
      LaterThanStart(first, phase);
      AttributedFirst(first, Attributed(rest, phase, start, now), phase, start, now);
      AnyProvesFirst(samples, phase, now);
    }
  }

  lemma AttributedFirst(first: Sample, later: seq<Sample>, phase: Marker, start: string, now: real)
    ensures var all := if SameSession(first, phase, now) then [Attribute(first, phase, start)] + later else later;
      ObservedBlocker(all, phase) <==>
        || (SameSession(first, phase, now) && Less(start, first.serverUtc) && ShowsBlocker(first, phase.spid))
        || ObservedBlocker(later, phase)
  {
    var one := Attribute(first, phase, start);
    assert ShowsBlocker(one, phase.spid) == ShowsBlocker(first, phase.spid);
    var all := [one] + later;
    assert all[0] == one;
    if i :| 0 <= i < |later| && later[i].phase == Some(phase) && ShowsBlocker(later[i], phase.spid) {
      assert all[i + 1] == later[i];
    }
    if i :| 1 <= i < |all| && all[i].phase == Some(phase) && ShowsBlocker(all[i], phase.spid) {
      assert all[i] == later[i - 1];
    }
  }

  lemma FoundExactly(stored: seq<Sample>, phase: Option<Marker>, now: real, f: Frozen)
    requires KeysOk(stored) && f.phase == phase
    requires var samples := CaseSamples(Newest(stored), phase, now);
      f.samples == if samples.Some? then samples.value else []
    ensures Found(f) <==> Evidence(stored, phase, now)
  {
    if phase.Some? && UtcKey(phase.value.utc).Some? {
      NewestKeysOk(stored);
      AttributedProves(Newest(stored), phase.value, now);
      AnyProvesNewest(stored, phase.value, now);
    }
  }

  lemma NewestKeysOk(stored: seq<Sample>)
    requires KeysOk(stored)
    ensures KeysOk(Newest(stored))
  {
  }

  /** The first time-out is at `i`, and the samples stored by then prove a blocker. */
  ghost predicate Proven(es: seq<Event>, i: nat) {
    FirstTrigger(es, i) && Evidence(Stored(es[..i]), CurrentCase(es[..i]), es[i].now)
  }

  lemma StatusOfFrozen(s: State, expected: bool)
    ensures Finish(s, expected).status == No1222 <==> s.frozen.None?
    ensures Finish(s, expected).status == BlockerObserved <==> s.frozen.Some? && Found(s.frozen.value)
  {
  }

  lemma ProvenAtFirst(es: seq<Event>, i: nat)
    requires FirstTrigger(es, i)
    ensures Run(es).frozen.Some? && (Found(Run(es).frozen.value) <==> Proven(es, i))
  {
    FrozenContents(es, i);
    StoredKeysOk(es[..i]);
    FoundExactly(Stored(es[..i]), CurrentCase(es[..i]), es[i].now, Run(es).frozen.value);
  }

  lemma FirstTriggerIsUnique(es: seq<Event>, i: nat, j: nat)
    requires FirstTrigger(es, i) && FirstTrigger(es, j)
    ensures i == j
  {
  }

  /** For every interleaving of message lines and samples: a blocker is reported if
    * and only if a time-out was reported at all and, when the first one was, one of
    * the newest stored samples of the phase's own session, taken later than the
    * phase began and within the window, showed that session waiting for a lock
    * behind another one. */
  lemma BlockerReportedExactly(es: seq<Event>, expected: bool)
    ensures Finish(Run(es), expected).status == BlockerObserved <==> exists i: nat :: Proven(es, i)
    ensures Finish(Run(es), expected).status == No1222 <==> forall i: nat :: !TriggerAt(es, i)
  {
    StatusOfFrozen(Run(es), expected);
    if n: nat :| TriggerAt(es, n) {
      var i := TriggerExists(es, n);
      ProvenAtFirst(es, i);
      if j: nat :| Proven(es, j) {
        FirstTriggerIsUnique(es, i, j);
      }
    } else {
      NothingFrozen(es, es);
    }
  }
}
