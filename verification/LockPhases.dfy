/** Which samples are attributed to a phase, and what the markers of a run say. */
module LockPhases {
  import opened Common
  import opened TextOps
  import opened UtcKeys
  import opened LockObservation

  // ---------- attribution ----------

  predicate Ascending(s: seq<nat>) {
    forall k, l | 0 <= k < l < |s| :: s[k] < s[l]
  }

  /** Taken in the phase's own session and at most ten seconds before `now`. */
  predicate Recent(sample: Sample, phase: Marker, now: real) {
    now - sample.clock <= 10.0 && sample.phase.Some? && sample.phase.value.spid == phase.spid
  }

  /** `kept` is the sample, attributed to the phase if it is later than the phase began. */
  ghost predicate AttributedAs(sample: Sample, kept: Sample, phase: Marker)
    requires Shaped(phase.utc) && Shaped(sample.serverUtc)
  {
    kept == sample.(phase := if Earlier(TimeOf(phase.utc), TimeOf(sample.serverUtc)) then Some(phase) else None)
  }

  /** `kept` is the sample at `position`, attributed. */
  ghost predicate PickedOne(position: nat, samples: seq<Sample>, kept: Sample, phase: Marker)
    requires Shaped(phase.utc)
  {
    position < |samples| && Shaped(samples[position].serverUtc) && AttributedAs(samples[position], kept, phase)
  }

  /** `kept` are the samples at `positions`, each attributed. */
  ghost predicate PickedAt(positions: seq<nat>, samples: seq<Sample>, kept: seq<Sample>, phase: Marker) {
    && |kept| == |positions| && Shaped(phase.utc)
    && forall j | 0 <= j < |positions| :: PickedOne(positions[j], samples, kept[j], phase)
  }

  predicate RecentAt(positions: seq<nat>, samples: seq<Sample>, phase: Marker, now: real) {
    forall k | 0 <= k < |samples| :: k in positions <==> Recent(samples[k], phase, now)
  }

  /** The samples at `positions` are the recent ones, in order, each attributed. */
  ghost predicate KeptAt(positions: seq<nat>, samples: seq<Sample>, kept: seq<Sample>, phase: Marker, now: real) {
    Ascending(positions) && PickedAt(positions, samples, kept, phase) && RecentAt(positions, samples, phase, now)
  }

  function Shifted(s: seq<nat>): (r: seq<nat>)
    ensures |r| == |s| && forall k | 0 <= k < |s| :: r[k] == s[k] + 1
  {
    seq(|s|, i requires 0 <= i < |s| => s[i] + 1)
  }

  lemma InShifted(s: seq<nat>, x: nat)
    ensures (x in Shifted(s)) == (x > 0 && x - 1 in s)
  {
    if k :| 0 <= k < |s| && s[k] == x - 1 { assert Shifted(s)[k] == x; }
    if k :| 0 <= k < |Shifted(s)| && Shifted(s)[k] == x { assert s[k] == x - 1; }
  }

  lemma RecentShifted(samples: seq<Sample>, later: seq<nat>, phase: Marker, now: real)
    requires samples != [] && RecentAt(later, samples[1..], phase, now)
    ensures forall k | 1 <= k < |samples| :: k in Shifted(later) <==> Recent(samples[k], phase, now)
    ensures 0 !in Shifted(later)
  {
    forall k | 1 <= k < |samples| ensures k in Shifted(later) <==> Recent(samples[k], phase, now) {
      InShifted(later, k);
      assert samples[1..][k - 1] == samples[k];
    }
    InShifted(later, 0);
  }

  lemma PickedBehind(position: nat, samples: seq<Sample>, kept: Sample, phase: Marker)
    requires samples != [] && Shaped(phase.utc)
    ensures PickedOne(position, samples[1..], kept, phase) ==> PickedOne(position + 1, samples, kept, phase)
  {
  }

  lemma PickedRest(samples: seq<Sample>, later: seq<nat>, kept: seq<Sample>, phase: Marker)
    requires samples != [] && PickedAt(later, samples[1..], kept, phase)
    ensures PickedAt(Shifted(later), samples, kept, phase)
  {
    forall j | 0 <= j < |later| ensures PickedOne(Shifted(later)[j], samples, kept[j], phase) {
      assert PickedOne(later[j], samples[1..], kept[j], phase);
      PickedBehind(later[j], samples, kept[j], phase);
    }
  }

  /** One more pair in front keeps what holds of all pairs. */
  lemma PairsFirst(related: (nat, Sample) -> bool, positions: seq<nat>, kept: seq<Sample>, position: nat, first: Sample)
    requires |positions| == |kept| && related(position, first)
    requires forall j | 0 <= j < |positions| :: related(positions[j], kept[j])
    ensures forall j | 0 <= j < |positions| + 1 :: related(([position] + positions)[j], ([first] + kept)[j])
  {
  }

  lemma PickedFirst(samples: seq<Sample>, later: seq<nat>, kept: seq<Sample>, first: Sample, phase: Marker)
    requires PickedAt(later, samples, kept, phase) && PickedOne(0, samples, first, phase)
    ensures PickedAt([0] + later, samples, [first] + kept, phase)
  {
    var related := (position: nat, sample: Sample) requires Shaped(phase.utc) =>
      PickedOne(position, samples, sample, phase);
    PairsFirst(related, later, kept, 0, first);
  }

  lemma RecentFirst(samples: seq<Sample>, later: seq<nat>, phase: Marker, now: real)
    requires samples != [] && RecentAt(later, samples[1..], phase, now) && Recent(samples[0], phase, now)
    ensures RecentAt([0] + Shifted(later), samples, phase, now)
  {
    RecentShifted(samples, later, phase, now);
    forall k | 0 <= k < |samples| ensures k in [0] + Shifted(later) <==> Recent(samples[k], phase, now) {
      assert k in [0] + Shifted(later) <==> k == 0 || k in Shifted(later);
    }
  }

  lemma AscendingFirst(later: seq<nat>)
    requires Ascending(later)
    ensures Ascending([0] + Shifted(later))
  {
  }

  lemma KeptByParts(positions: seq<nat>, samples: seq<Sample>, kept: seq<Sample>, phase: Marker, now: real)
    ensures KeptAt(positions, samples, kept, phase, now) ==
      (Ascending(positions) && PickedAt(positions, samples, kept, phase) && RecentAt(positions, samples, phase, now))
  {
  }

  lemma FirstKept(samples: seq<Sample>, later: seq<nat>, kept: seq<Sample>, first: Sample, phase: Marker, now: real)
    requires samples != [] && KeptAt(later, samples[1..], kept, phase, now)
    requires Recent(samples[0], phase, now) && Shaped(samples[0].serverUtc) && AttributedAs(samples[0], first, phase)
    ensures KeptAt([0] + Shifted(later), samples, [first] + kept, phase, now)
  {
    PickedRest(samples, later, kept, phase);
    PickedFirst(samples, Shifted(later), kept, first, phase);
    RecentFirst(samples, later, phase, now);
    AscendingFirst(later);
    KeptByParts([0] + Shifted(later), samples, [first] + kept, phase, now);
  }

  lemma FirstSkipped(samples: seq<Sample>, later: seq<nat>, kept: seq<Sample>, phase: Marker, now: real)
    requires samples != [] && KeptAt(later, samples[1..], kept, phase, now) && !Recent(samples[0], phase, now)
    ensures KeptAt(Shifted(later), samples, kept, phase, now)
  {
    RecentShifted(samples, later, phase, now);
    PickedRest(samples, later, kept, phase);
  }

  lemma FirstAttributed(sample: Sample, phase: Marker)
    requires UtcKey(phase.utc).Some? && UtcKey(sample.serverUtc) == Some(sample.serverUtc)
    ensures Shaped(phase.utc) && Shaped(sample.serverUtc)
    ensures AttributedAs(sample, Attribute(sample, phase, UtcKey(phase.utc).value), phase)
  {
    LaterThanStart(sample, phase);
  }

  /** Attribution keeps, in order, the recent samples of the phase's session, and
    * attributes to the phase those that are later than its start. */
  lemma {:induction false} AttributedExactly(samples: seq<Sample>, phase: Marker, now: real)
    returns (positions: seq<nat>)
    requires UtcKey(phase.utc).Some? && KeysOk(samples)
    ensures KeptAt(positions, samples, Attributed(samples, phase, UtcKey(phase.utc).value, now), phase, now)
  {
    PhaseIsShaped(phase);
    if samples == [] {
      positions := [];
    } else {
      var start := UtcKey(phase.utc).value;
      var later := AttributedExactly(samples[1..], phase, now);
      if Recent(samples[0], phase, now) {
        FirstAttributed(samples[0], phase);
        FirstKept(samples, later, Attributed(samples[1..], phase, start, now), Attribute(samples[0], phase, start),
                  phase, now);
        positions := [0] + Shifted(later);
      } else {
        FirstSkipped(samples, later, Attributed(samples[1..], phase, start, now), phase, now);
        positions := Shifted(later);
      }
    }
  }

  lemma PhaseIsShaped(phase: Marker)
    requires UtcKey(phase.utc).Some?
    ensures Shaped(phase.utc)
  {
  }

  /** The buffer at event `i`: the newest forty of the samples stored before it. */
  function Buffer(es: seq<Event>, i: nat): seq<Sample>
    requires i <= |es|
  {
    var stored := Stored(es[..i]);
    if |stored| <= 40 then stored else stored[|stored| - 40..]
  }

  /** The samples of a report: none without a phase of a valid start, and otherwise
    * the recent ones of the buffer, attributed. */
  ghost predicate ReportedSamples(es: seq<Event>, i: nat, samples: seq<Sample>)
    requires i < |es| && es[i].Fed?
  {
    match CurrentCase(es[..i])
    case None => samples == []
    case Some(phase) =>
      if UtcKey(phase.utc).None? then samples == []
      else exists positions :: KeptAt(positions, Buffer(es, i), samples, phase, es[i].now)
  }

  /** The report of a run whose first time-out was at `i`, claim and errors apart. */
  lemma ReportExactly(es: seq<Event>, i: nat, expected: bool)
    requires FirstTrigger(es, i)
    ensures var report := Finish(Run(es), expected);
      && report.phase == CurrentCase(es[..i]) && ReportedSamples(es, i, report.samples)
      && report.trigger == Some(if es[i].line == Message("1222") then SqlError1222 else TableExportLockTimeout)
      && report.truncated == exists k | 0 <= k < |report.samples| :: report.samples[k].truncated
  {
    FrozenContents(es, i);
    var phase := CurrentCase(es[..i]);
    if phase.Some? && UtcKey(phase.value.utc).Some? {
      StoredKeysOk(es[..i]);
      NewestKeysOk(Stored(es[..i]));
      assert Newest(Stored(es[..i])) == Buffer(es, i);
      var positions := AttributedExactly(Buffer(es, i), phase.value, es[i].now);
    }
  }

  // ---------- markers ----------

  predicate Announces(e: Event, kind: MarkerKind) {
    e.Fed? && e.line.Mark? && e.line.item.kind == kind && e.line.item.suite == "DEPLOYMENT"
  }

  /** The deployment that began last is session `spid`. */
  ghost predicate BegunLast(es: seq<Event>, i: nat, spid: nat) {
    && i < |es| && Announces(es[i], Begin) && es[i].line.item.spid == spid
    && forall k | i < k < |es| :: !Announces(es[k], Begin)
  }

  /** Event `j` is the phase of the deployment that began last before it. */
  ghost predicate Reaches(es: seq<Event>, i: nat, j: nat) {
    && i < j < |es| && Announces(es[j], Case) && es[j].line.item.site == "SnapshotSchema"
    && BegunLast(es[..j], i, es[j].line.item.spid)
  }

  ghost predicate Begun(es: seq<Event>) {
    exists i | 0 <= i < |es| :: Announces(es[i], Begin)
  }

  ghost predicate Reached(es: seq<Event>) {
    exists i: nat, j: nat :: Reaches(es, i, j)
  }

  lemma {:induction false} SessionExactly(es: seq<Event>, spid: nat)
    ensures (Run(es).deploymentSession == Some(spid)) == exists i: nat :: BegunLast(es, i, spid)
    ensures Run(es).deploymentSession.Some? == Begun(es)
  {
    if es != [] {
      var n, before := |es| - 1, es[..|es| - 1];
      SessionExactly(before, spid);
      if Announces(es[n], Begin) {
        assert BegunLast(es, n, es[n].line.item.spid);
      } else {
        assert Run(es).deploymentSession == Run(before).deploymentSession;
        forall i: nat ensures BegunLast(es, i, spid) == BegunLast(before, i, spid) {
          BegunStays(es, i, spid);
        }
        assert forall i | 0 <= i < n :: es[i] == before[i];
      }
    }
  }

  lemma BegunStays(es: seq<Event>, i: nat, spid: nat)
    requires es != [] && !Announces(es[|es| - 1], Begin)
    ensures BegunLast(es, i, spid) == BegunLast(es[..|es| - 1], i, spid)
  {
  }

  lemma ReachesBefore(es: seq<Event>, i: nat, j: nat)
    requires j < |es| - 1
    ensures Reaches(es, i, j) == Reaches(es[..|es| - 1], i, j)
  {
    assert es[..|es| - 1][..j] == es[..j];
  }

  lemma {:induction false} PhaseSeenExactly(es: seq<Event>)
    ensures Run(es).phaseSeen == Reached(es)
  {
    if es != [] {
      var n, before := |es| - 1, es[..|es| - 1];
      PhaseSeenExactly(before);
      forall i: nat, j: nat | j < n ensures Reaches(es, i, j) == Reaches(before, i, j) { ReachesBefore(es, i, j); }
      if es[n].Fed? && es[n].line.Mark? {
        SessionExactly(before, es[n].line.item.spid);
      }
      if i: nat, j: nat :| Reaches(es, i, j) && j == n {
        assert es[..n] == before && BegunLast(before, i, es[n].line.item.spid);
      }
      if Run(es).phaseSeen && !Run(before).phaseSeen {
        var i: nat :| BegunLast(before, i, es[n].line.item.spid);
        assert es[..n] == before && Reaches(es, i, n);
      }
    }
  }

  /** The errors a run adds at its end: no deployment began although one was
    * expected; no phase of the deployment was reached although one was expected or
    * began. */
  lemma DeploymentErrorsExactly(es: seq<Event>, expected: bool)
    ensures FinishErrors(Run(es), expected) == Run(es).errors
      + (if expected && !Begun(es) then [DeploymentBeginNotObserved] else [])
      + (if (expected || Begun(es)) && !Reached(es) then [DeploymentPhaseNotObserved] else [])
  {
    SessionExactly(es, 0);
    PhaseSeenExactly(es);
  }

  /** Event `j` starts the observer if it has not started: any marker but an END, of a
    * deployment only the phase it reaches. */
  ghost predicate Starts(es: seq<Event>, j: nat) {
    && j < |es| && es[j].Fed? && es[j].line.Mark? && es[j].line.item.kind != End
    && (es[j].line.item.suite != "DEPLOYMENT" || exists i: nat :: Reaches(es, i, j))
  }

  ghost predicate FirstStart(es: seq<Event>, j: nat) {
    Starts(es, j) && forall k | 0 <= k < j :: !Starts(es, k)
  }

  lemma StartsBefore(es: seq<Event>, j: nat)
    requires es != [] && j < |es| - 1
    ensures Starts(es, j) == Starts(es[..|es| - 1], j)
  {
    var before := es[..|es| - 1];
    forall i: nat ensures Reaches(es, i, j) == Reaches(before, i, j) { ReachesBefore(es, i, j); }
    assert (exists i: nat :: Reaches(es, i, j)) == (exists i: nat :: Reaches(before, i, j));
    assert es[j] == before[j];
  }

  lemma StartsLast(es: seq<Event>, m: Marker, now: real)
    requires es != [] && es[|es| - 1] == Fed(Mark(m), now)
    ensures Starts(es, |es| - 1) ==
      (m.kind != End && (m.suite != "DEPLOYMENT"
                         || DeploymentPhase(m, Run(es[..|es| - 1]).deploymentSession)))
  {
    var n, before := |es| - 1, es[..|es| - 1];
    SessionExactly(before, m.spid);
    assert es[..n] == before;
    forall i: nat ensures Reaches(es, i, n) ==
      (m.suite == "DEPLOYMENT" && m.kind == Case && m.site == "SnapshotSchema" && BegunLast(before, i, m.spid)) {}
  }

  /** The observer starts at the first event that starts it. */
  lemma {:induction false} StartedExactly(es: seq<Event>)
    ensures match Run(es).started
      case Some(at) => exists j: nat :: FirstStart(es, j) && es[j].Fed? && es[j].now == at
      case None => forall j: nat :: !Starts(es, j)
  {
    if es != [] {
      var n, before := |es| - 1, es[..|es| - 1];
      StartedExactly(before);
      forall j: nat | j < n ensures Starts(es, j) == Starts(before, j) { StartsBefore(es, j); }
      if es[n].Fed? && es[n].line.Mark? {
        StartsLast(es, es[n].line.item, es[n].now);
      }
      if Run(before).started.Some? {
        var j: nat :| FirstStart(before, j) && before[j].Fed? && before[j].now == Run(before).started.value;
        assert FirstStart(es, j);
      } else if Starts(es, n) {
        assert FirstStart(es, n);
      }
    }
  }

  /** The errors one event adds. */
  ghost function ErrorsOf(es: seq<Event>, j: nat): seq<Error>
    requires j < |es|
  {
    match es[j]
    case Failed(code) => [ObserverError(code)]
    case Sampled(_, utc, _, _) => if UtcKey(utc).None? then [ObservationFailed] else []
    case Fed(_, _) =>
      var phase := CurrentCase(es[..j]);
      if FirstTrigger(es, j) && phase.Some? && UtcKey(phase.value.utc).None? then [InvalidServerTime] else []
  }

  ghost function AllErrors(es: seq<Event>, n: nat): seq<Error>
    requires n <= |es|
  {
    if n == 0 then [] else AllErrors(es, n - 1) + ErrorsOf(es, n - 1)
  }

  lemma SameFirstTrigger(es: seq<Event>, n: nat, j: nat)
    requires j < n <= |es|
    ensures FirstTrigger(es[..n], j) == FirstTrigger(es, j)
  {
    forall k: nat | k < n ensures TriggerAt(es[..n], k) == TriggerAt(es, k) {
      TriggersOfPrefix(es, n, k);
    }
    assert forall k | 0 <= k < j :: TriggerAt(es[..n], k) == TriggerAt(es, k);
  }

  lemma SameErrors(es: seq<Event>, n: nat, j: nat)
    requires j < n <= |es|
    ensures ErrorsOf(es[..n], j) == ErrorsOf(es, j)
  {
    assert es[..n][..j] == es[..j] && es[..n][j] == es[j];
    SameFirstTrigger(es, n, j);
  }

  lemma {:induction false} ErrorsOfPrefix(es: seq<Event>, n: nat)
    requires es != [] && n <= |es| - 1
    ensures AllErrors(es, n) == AllErrors(es[..|es| - 1], n)
  {
    if n > 0 {
      ErrorsOfPrefix(es, n - 1);
      SameErrors(es, |es| - 1, n - 1);
    }
  }

  /** Nothing is frozen yet exactly if no event triggered. */
  lemma FrozenAfterTrigger(es: seq<Event>)
    ensures Run(es).frozen.None? == forall k: nat :: !TriggerAt(es, k)
  {
    if k: nat :| TriggerAt(es, k) {
      var i := TriggerExists(es, k);
      FrozenAtFirstTrigger(es, i);
    } else {
      NothingFrozen(es, es);
    }
  }

  predicate BadStart(phase: Option<Marker>) {
    phase.Some? && UtcKey(phase.value.utc).None?
  }

  /** A line adds an error only when it freezes a phase with an invalid start. */
  lemma FeedAdds(s: State, line: Line, now: real)
    requires s.tableError.Some? ==> s.tableError.value == s.phase
    ensures var freezes := s.frozen.None? && (line == Message("1222") || (line == TableOutput && s.tableError.Some?));
      Feed(s, line, now).errors == s.errors + if freezes && BadStart(s.phase) then [InvalidServerTime] else []
  {
  }

  lemma FirstAtEnd(es: seq<Event>)
    requires es != []
    ensures var before := es[..|es| - 1];
      FirstTrigger(es, |es| - 1) == (TriggerAt(es, |es| - 1) && Run(before).frozen.None?)
  {
    var n, before := |es| - 1, es[..|es| - 1];
    FrozenAfterTrigger(before);
    forall k: nat | k < n ensures TriggerAt(before, k) == TriggerAt(es, k) {
      TriggersOfPrefix(es, n, k);
    }
  }

  lemma LastAdds(es: seq<Event>)
    requires es != []
    ensures Run(es).errors == Run(es[..|es| - 1]).errors + ErrorsOf(es, |es| - 1)
  {
    var n, before := |es| - 1, es[..|es| - 1];
    assert es[..n] == before;
    if es[n].Fed? {
      RunPhase(before);
      RunTableError(before);
      FirstAtEnd(es);
      FeedAdds(Run(before), es[n].line, es[n].now);
    }
  }

  /** The errors of a run are those its events add, in order. */
  lemma {:induction false} ErrorsExactly(es: seq<Event>)
    ensures Run(es).errors == AllErrors(es, |es|)
  {
    if es != [] {
      ErrorsExactly(es[..|es| - 1]);
      ErrorsOfPrefix(es, |es| - 1);
      LastAdds(es);
    }
  }
}
