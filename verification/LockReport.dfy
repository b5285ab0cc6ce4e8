/** Fitting the lock report and its summary into their size limits. */
module LockReport {
  import opened Common
  import opened LockObservation
  import opened TextOps
  import opened UtcKeys

  /** The serialized size of a report is any function of the report. */
  type ReportSize = Report -> nat

  /** A report that claims a blocker holds a sample that shows it. */
  ghost predicate Truthful(r: Report) {
    r.status == BlockerObserved ==> r.phase.Some? && ObservedBlocker(r.samples, r.phase.value)
  }

  // ---------- the artifact ----------

  /** The report after its `k` oldest samples were dropped. */
  ghost function Without(r: Report, k: nat): Report
    requires k <= |r.samples|
  {
    var rest := r.samples[k..];
    if k > 0 && r.phase.Some? && !ObservedBlocker(rest, r.phase.value) then
      r.(samples := rest, status := BlockerNotCaptured)
    else r.(samples := rest)
  }

  lemma WithoutOneMore(r: Report, k: nat)
    requires k < |r.samples|
    ensures Without(Without(r, k), 1) == Without(r, k + 1)
  {
    assert r.samples[k..][1..] == r.samples[k + 1..];
  }

  lemma WithoutIsTruthful(r: Report, k: nat)
    requires k <= |r.samples| && Truthful(r)
    ensures Truthful(Without(r, k))
  {
    assert r.samples[0..] == r.samples;
  }

  /** The report with the flags of one that is over its limit. */
  function Flagged(r: Report): Report {
    r.(truncated := true, errors := r.errors + [ArtifactSizeLimit])
  }

  /** What encoding may leave of a report, for any size and limit. */
  ghost predicate EncodedFrom(original: Report, encoded: Report) {
    encoded == original || exists k | 0 <= k <= |original.samples| :: encoded == Without(Flagged(original), k)
  }

  datatype Payload = Full(report: Report) | SizeLimit(exitCode: int)

  class Artifact {
    var report: Report
    const exitCode: int

    constructor (report: Report, exitCode: int)
      ensures this.report == report && this.exitCode == exitCode
    {
      this.report, this.exitCode := report, exitCode;
    }

    /** An oversized report loses its oldest samples, at least one if there are any
      * and then no more than needed; one that still does not fit is replaced. */
    method Encode(size: ReportSize, limit: nat) returns (payload: Payload, ghost dropped: nat)
      modifies this
      ensures size(old(report)) <= limit ==> report == old(report) && payload == Full(report) && dropped == 0
      ensures size(old(report)) > limit ==>
        var flagged := Flagged(old(report));
        && dropped <= |flagged.samples|
        && report == Without(flagged, dropped)
        && (forall k | 1 <= k < dropped :: size(Without(flagged, k)) > limit)
        && (if dropped > 0 && size(report) <= limit then payload == Full(report)
            else report.samples == [] && payload == SizeLimit(exitCode))
      ensures EncodedFrom(old(report), report)
      ensures Truthful(old(report)) ==> Truthful(report)
      ensures payload.Full? ==> size(payload.report) <= limit
    {
      payload, dropped := Full(report), 0;
      if size(report) > limit {
        report := report.(truncated := true, errors := report.errors + [ArtifactSizeLimit]);
        ghost var flagged := report;
        // Appending the error can change the size: the loop tests the size from before
        // the first time and the current size afterwards.
        var tooLarge := true;
        assert flagged.samples[0..] == flagged.samples;
        while report.samples != [] && tooLarge
          invariant dropped <= |flagged.samples| && report == Without(flagged, dropped)
          invariant tooLarge == (dropped == 0 || size(report) > limit)
          invariant forall k | 1 <= k < dropped :: size(Without(flagged, k)) > limit
          decreases |report.samples|
        {
          WithoutOneMore(flagged, dropped);
          report := report.(samples := report.samples[1..]);
          if report.phase.Some? {
            var found := FindBlocker(report.samples, report.phase.value);
            if !found {
              report := report.(status := BlockerNotCaptured);
            }
          }
          dropped := dropped + 1;
          tooLarge := size(report) > limit;
        }
        payload := if tooLarge then SizeLimit(exitCode) else Full(report);
        if Truthful(flagged) { WithoutIsTruthful(flagged, dropped); }
      }
    }
  }

  // ---------- the rows of one sample that matter ----------

  predicate Matches(row: Row, lock: bool, session: int, status: string) {
    if lock then row.Lock? && row.session == session && row.status == status
    else row.Request? && row.session == session
  }

  /** The last row that shows the session waiting for a lock behind another one. */
  function Anchor(rows: seq<Row>, spid: int, n: nat): (r: Option<nat>)
    requires n <= |rows|
    ensures r.Some? ==> r.value < n && Blocking(rows[r.value], spid)
    ensures r.None? ==> forall i | 0 <= i < n :: !Blocking(rows[i], spid)
  {
    if n == 0 then None else if Blocking(rows[n - 1], spid) then Some(n - 1) else Anchor(rows, spid, n - 1)
  }

  /** The first request of the blocking session that is not the anchor itself. */
  function BlockerRequest(rows: seq<Row>, anchor: nat, session: int, i: nat): (r: Option<nat>)
    requires i <= |rows|
    ensures r.Some? ==> i <= r.value < |rows| && r.value != anchor && Matches(rows[r.value], false, session, "")
    decreases |rows| - i
  {
    if i == |rows| then None
    else if i != anchor && Matches(rows[i], false, session, "") then Some(i)
    else BlockerRequest(rows, anchor, session, i + 1)
  }

  /** The first lock the session was granted on a resource. */
  function Grant(rows: seq<Row>, session: int, resource: seq<string>, i: nat): (r: Option<nat>)
    requires i <= |rows|
    ensures r.Some? ==>
      && i <= r.value < |rows| && Matches(rows[r.value], true, session, "GRANT")
      && rows[r.value].resource == resource
    decreases |rows| - i
  {
    if i == |rows| then None
    else if Matches(rows[i], true, session, "GRANT") && rows[i].resource == resource then Some(i)
    else Grant(rows, session, resource, i + 1)
  }

  /** The first waited-for lock whose resource the blocker holds, with that grant. */
  function Pair(rows: seq<Row>, spid: int, blocker: int, i: nat): (r: Option<(nat, nat)>)
    requires i <= |rows|
    ensures r.Some? ==>
      && r.value.0 < |rows| && Matches(rows[r.value.0], true, spid, "WAIT")
      && r.value.1 < |rows| && Matches(rows[r.value.1], true, blocker, "GRANT")
      && rows[r.value.0].resource == rows[r.value.1].resource
    decreases |rows| - i
  {
    if i == |rows| then None
    else if Matches(rows[i], true, spid, "WAIT") && Grant(rows, blocker, rows[i].resource, 0).Some? then
      Some((i, Grant(rows, blocker, rows[i].resource, 0).value))
    else Pair(rows, spid, blocker, i + 1)
  }

  /** The corroborating rows, by position. */
  function Support(rows: seq<Row>, spid: int, anchor: nat): (r: seq<nat>)
    requires anchor < |rows| && Blocking(rows[anchor], spid)
    ensures |r| <= 3 && forall k | 0 <= k < |r| :: r[k] < |rows| && r[k] != anchor
  {
    var blocker := rows[anchor].blocking;
    var request, pair := BlockerRequest(rows, anchor, blocker, 0), Pair(rows, spid, blocker, 0);
    (if request.Some? then [request.value] else []) + (if pair.Some? then [pair.value.0, pair.value.1] else [])
  }

  /** A row that would corroborate as well but is left out in favour of the others. */
  predicate Redundant(row: Row, spid: int, blocker: int) {
    || Blocking(row, spid)
    || Matches(row, false, blocker, "")
    || Matches(row, true, spid, "WAIT")
    || Matches(row, true, blocker, "GRANT")
  }

  /** The remaining rows in their order. */
  function Others(rows: seq<Row>, spid: int, blocker: int, i: nat): (r: seq<nat>)
    requires i <= |rows|
    ensures forall k | 0 <= k < |r| :: i <= r[k] < |rows| && !Redundant(rows[r[k]], spid, blocker)
    ensures forall x | i <= x < |rows| && !Redundant(rows[x], spid, blocker) :: x in r
    decreases |rows| - i
  {
    if i == |rows| then []
    else
      var rest := Others(rows, spid, blocker, i + 1);
      if Redundant(rows[i], spid, blocker) then rest else [i] + rest
  }

  /** The first grant per resource, then the first wait that has one. */
  method FindPair(rows: seq<Row>, spid: int, blocker: int) returns (pair: Option<(nat, nat)>)
    ensures pair == Pair(rows, spid, blocker, 0)
  {
    var grants: map<seq<string>, nat> := map[];
    for i := |rows| downto 0
      invariant forall key :: Grant(rows, blocker, key, i) == if key in grants then Some(grants[key]) else None
    {
      if Matches(rows[i], true, blocker, "GRANT") {
        grants := grants[rows[i].resource := i];
      }
    }
    for i := 0 to |rows|
      invariant Pair(rows, spid, blocker, 0) == Pair(rows, spid, blocker, i)
    {
      if Matches(rows[i], true, spid, "WAIT") && rows[i].resource in grants {
        return Some((i, grants[rows[i].resource]));
      }
    }
    pair := None;
  }

  // ---------- the summary ----------

  /** Positions of a sample's rows: the anchor, what corroborates it, the rest. */
  datatype Layout = Layout(mandatory: seq<nat>, support: seq<nat>, rest: seq<nat>) {
    function All(): seq<nat> { mandatory + support + rest }
  }

  predicate HasAnchor(sample: Sample, phase: Option<Marker>) {
    phase.Some? && sample.phase == phase && Anchor(sample.rows, phase.value.spid, |sample.rows|).Some?
  }

  /** A sample has an anchor exactly if it is attributed to the phase and shows it. */
  lemma AnchorIsEvidence(sample: Sample, phase: Marker)
    ensures HasAnchor(sample, Some(phase)) <==> sample.phase == Some(phase) && ShowsBlocker(sample, phase.spid)
  {
    var r := Anchor(sample.rows, phase.spid, |sample.rows|);
    assert r.Some? ==> Blocking(sample.rows[r.value], phase.spid);
  }

  function Every(n: nat): (r: seq<nat>)
    ensures |r| == n && forall k | 0 <= k < n :: r[k] == k
  {
    if n == 0 then [] else Every(n - 1) + [n - 1]
  }

  function LayoutOf(sample: Sample, phase: Option<Marker>): (l: Layout)
    ensures forall k | 0 <= k < |l.All()| :: l.All()[k] < |sample.rows|
    ensures l.mandatory != [] <==> HasAnchor(sample, phase)
    ensures l.mandatory == [] ==> l.support == []
  {
    if !HasAnchor(sample, phase) then Layout([], [], Every(|sample.rows|))
    else
      var rows, spid := sample.rows, phase.value.spid;
      var anchor := Anchor(rows, spid, |rows|).value;
      Layout([anchor], Support(rows, spid, anchor), Others(rows, spid, rows[anchor].blocking, 0))
  }

  function Pick(rows: seq<Row>, positions: seq<nat>): (r: seq<Row>)
    requires forall i | 0 <= i < |positions| :: positions[i] < |rows|
    ensures |r| == |positions| && forall i | 0 <= i < |r| :: r[i] == rows[positions[i]]
  {
    if positions == [] then [] else [rows[positions[0]]] + Pick(rows, positions[1..])
  }

  /** The newest sample that shows the blocker, or else the newest sample. */
  function Selected(samples: seq<Sample>, phase: Option<Marker>, n: nat): (r: Option<Sample>)
    requires n <= |samples|
    ensures r.None? <==> samples == []
    ensures r.Some? ==> r.value in samples
    ensures (exists i | 0 <= i < n :: HasAnchor(samples[i], phase)) ==> HasAnchor(r.value, phase)
  {
    if n > 0 && HasAnchor(samples[n - 1], phase) then Some(samples[n - 1])
    else if n > 0 then Selected(samples, phase, n - 1)
    else if samples == [] then None
    else Some(samples[|samples| - 1])
  }

  datatype Summary = Summary(
    status: Status, trigger: Option<Trigger>, phase: Option<Marker>, sample: Option<Sample>, errors: Option<seq<Error>>,
    exitCode: int, truncated: bool)

  type SummarySize = Summary -> nat

  const SUMMARY_BYTES: nat := 16384

  function LayoutOfReport(r: Report): Layout {
    match Selected(r.samples, r.phase, |r.samples|)
    case None => Layout([], [], [])
    case Some(sample) => LayoutOf(sample, r.phase)
  }

  /** The summary before anything is cut. */
  function Untrimmed(r: Report, exitCode: int): Summary {
    var selected := Selected(r.samples, r.phase, |r.samples|);
    var l := LayoutOfReport(r);
    var unproven := r.status == BlockerObserved && l.mandatory == [];
    Summary(if unproven then BlockerNotCaptured else r.status, r.trigger, r.phase,
            match selected
            case None => None
            case Some(sample) => Some(sample.(rows := Pick(sample.rows, l.All()))),
            Some(r.errors), exitCode, r.truncated || unproven)
  }

  function RowsOf(s: Summary): seq<Row> {
    match s.sample
    case None => []
    case Some(sample) => sample.rows
  }

  /** Keep the first `n` rows. */
  function Trim(s: Summary, n: nat): Summary {
    match s.sample
    case None => s
    case Some(sample) =>
      if n < |sample.rows| then s.(sample := Some(sample.(rows := sample.rows[..n])), truncated := true) else s
  }

  /** Give up the claim and all rows. */
  function Bare(s: Summary): Summary {
    s.(status := if s.status == BlockerObserved then BlockerNotCaptured else s.status, truncated := true,
       sample := match s.sample case None => None case Some(sample) => Some(sample.(rows := [])))
  }

  datatype Printed = Indented(summary: Summary) | Compact(summary: Summary)

  predicate Fits(s: Summary, size: SummarySize) {
    size(s) <= SUMMARY_BYTES
  }

  /** The longest fitting selection of rows wins; the corroborating rows go last
    * and all at once, the anchor only together with the claim. */
  predicate FittedTo(s: Summary, anchors: nat, preferred: nat, size: SummarySize, p: Printed) {
    var n := |RowsOf(s)|;
    if exists k | preferred <= k <= n :: Fits(Trim(s, k), size) then
      exists k | preferred <= k <= n ::
        && Fits(Trim(s, k), size) && p == Indented(Trim(s, k))
        && forall j | k < j <= n :: !Fits(Trim(s, j), size)
    else if anchors < preferred && Fits(Trim(s, anchors), size) then p == Indented(Trim(s, anchors))
    else if Fits(Bare(s), size) then p == Indented(Bare(s))
    else p == Compact(Bare(s).(errors := None))
  }

  predicate SummaryOf(r: Report, exitCode: int, size: SummarySize, p: Printed) {
    var l := LayoutOfReport(r);
    FittedTo(Untrimmed(r, exitCode), |l.mandatory|, |l.mandatory| + |l.support|, size, p)
  }

  method Summarize(r: Report, exitCode: int, size: SummarySize) returns (p: Printed)
    ensures SummaryOf(r, exitCode, size, p)
  {
    var l := LayoutOfReport(r);
    var start := Untrimmed(r, exitCode);
    var anchors, preferred := |l.mandatory|, |l.mandatory| + |l.support|;
    p := Fit(start, anchors, preferred, size);
  }

  method Fit(start: Summary, anchors: nat, preferred: nat, size: SummarySize) returns (p: Printed)
    requires anchors <= preferred <= |RowsOf(start)|
    ensures FittedTo(start, anchors, preferred, size, p)
  {
    var summary := start;
    ghost var kept := |RowsOf(start)|;
    while size(summary) > SUMMARY_BYTES && |RowsOf(summary)| > preferred
      invariant preferred <= kept <= |RowsOf(start)|
      invariant summary == Trim(start, kept) && |RowsOf(summary)| == kept
      invariant forall j | kept < j <= |RowsOf(start)| :: !Fits(Trim(start, j), size)
      decreases |RowsOf(summary)|
    {
      var sample := summary.sample.value;
      summary := summary.(sample := Some(sample.(rows := sample.rows[..|sample.rows| - 1])), truncated := true);
      kept := kept - 1;
      assert RowsOf(start)[..kept + 1][..kept] == RowsOf(start)[..kept];
    }
    if Fits(summary, size) {
      return Indented(summary);
    }
    assert kept == preferred && forall j | preferred <= j <= |RowsOf(start)| :: !Fits(Trim(start, j), size);
    if anchors < preferred {
      var sample := summary.sample.value;
      summary := summary.(sample := Some(sample.(rows := sample.rows[..anchors])), truncated := true);
      assert RowsOf(start)[..kept][..anchors] == RowsOf(start)[..anchors];
      assert summary == Trim(start, anchors);
      if Fits(summary, size) {
        return Indented(summary);
      }
    }
    if summary.status == BlockerObserved {
      summary := summary.(status := BlockerNotCaptured);
    }
    summary := summary.(truncated := true);
    if summary.sample.Some? {
      summary := summary.(sample := Some(summary.sample.value.(rows := [])));
    }
    assert summary == Bare(start);
    if Fits(summary, size) {
      return Indented(summary);
    }
    p := Compact(summary.(errors := None));
  }

  // ---------- what a summary still claims ----------

  predicate Claims(p: Printed) {
    p.summary.status == BlockerObserved
  }

  /** A summary that claims a blocker was printed in full form within the limit and
    * begins with a request row, of a sample attributed to the phase, that shows it. */
  lemma ClaimKeepsItsAnchor(r: Report, exitCode: int, size: SummarySize, p: Printed)
    requires SummaryOf(r, exitCode, size, p) && Claims(p)
    ensures p.Indented? && Fits(p.summary, size)
    ensures r.status == BlockerObserved && r.phase.Some? && p.summary.phase == r.phase
    ensures p.summary.sample.Some? && p.summary.sample.value.phase == r.phase
    ensures RowsOf(p.summary) != [] && Blocking(RowsOf(p.summary)[0], r.phase.value.spid)
    ensures exists s | s in r.samples :: RowsOf(p.summary)[0] in s.rows && s.phase == r.phase
  {
    var u, l := Untrimmed(r, exitCode), LayoutOfReport(r);
    assert u.status == BlockerObserved && l.mandatory != [];
    var sample := Selected(r.samples, r.phase, |r.samples|).value;
    var anchor := Anchor(sample.rows, r.phase.value.spid, |sample.rows|).value;
    assert l.All()[0] == anchor;
    assert RowsOf(u)[0] == sample.rows[anchor];
  }

  lemma SelectedShows(r: Report)
    requires Truthful(r) && r.status == BlockerObserved
    ensures LayoutOfReport(r).mandatory != []
  {
    var i :| 0 <= i < |r.samples| && r.samples[i].phase == r.phase && ShowsBlocker(r.samples[i], r.phase.value.spid);
    AnchorIsEvidence(r.samples[i], r.phase.value);
    assert HasAnchor(r.samples[i], r.phase);
  }

  /** Some selection of rows that keeps the anchor fits. */
  predicate AnchorFits(r: Report, exitCode: int, size: SummarySize) {
    var u, l := Untrimmed(r, exitCode), LayoutOfReport(r);
    || (exists k | |l.mandatory| + |l.support| <= k <= |RowsOf(u)| :: Fits(Trim(u, k), size))
    || (l.support != [] && Fits(Trim(u, 1), size))
  }

  /** The claim is given up only if not even the anchor row fits. */
  lemma ClaimGivenUpExactly(r: Report, exitCode: int, size: SummarySize, p: Printed)
    requires Truthful(r) && r.status == BlockerObserved && SummaryOf(r, exitCode, size, p)
    ensures Claims(p) <==> AnchorFits(r, exitCode, size)
  {
    SelectedShows(r);
  }

  // ---------- from the events to the summary ----------

  lemma EncodedIsTruthful(s: State, expected: bool, encoded: Report)
    requires EncodedFrom(Finish(s, expected), encoded)
    ensures Truthful(encoded)
  {
    var original := Finish(s, expected);
    if encoded != original {
      var k :| 0 <= k <= |original.samples| && encoded == Without(Flagged(original), k);
      WithoutIsTruthful(Flagged(original), k);
    }
  }

  lemma EncodedSamples(original: Report, encoded: Report)
    requires EncodedFrom(original, encoded)
    ensures encoded.phase == original.phase && forall s | s in encoded.samples :: s in original.samples
    ensures encoded.status == BlockerObserved ==> original.status == BlockerObserved
  {
  }

  /** One of the 40 newest samples stored before the first time-out, at `i`, proves
    * the blocker of the phase, and `row` is the row of it that shows it. */
  ghost predicate ShownBy(es: seq<Event>, i: nat, k: nat, phase: Option<Marker>, row: Row) {
    && FirstTrigger(es, i) && phase.Some? && phase == CurrentCase(es[..i])
    && |Stored(es[..i])| - KEPT_SAMPLES <= k < |Stored(es[..i])|
    && Proves(Stored(es[..i])[k], phase.value, es[i].now)
    && row in Stored(es[..i])[k].rows && Blocking(row, phase.value.spid)
  }

  lemma {:induction false} AttributedOrigin(samples: seq<Sample>, phase: Marker, start: string, now: real, s: Sample)
    returns (k: nat)
    requires s in Attributed(samples, phase, start, now) && s.phase == Some(phase)
    ensures k < |samples| && SameSession(samples[k], phase, now) && Less(start, samples[k].serverUtc)
    ensures s == Attribute(samples[k], phase, start)
  {
    if SameSession(samples[0], phase, now) && s == Attribute(samples[0], phase, start) {
      k := 0;
    } else {
      k := AttributedOrigin(samples[1..], phase, start, now, s);
      k := k + 1;
    }
  }

  lemma OriginIsEvidence(origin: Sample, phase: Marker, now: real, row: Row)
    requires UtcKey(phase.utc).Some? && UtcKey(origin.serverUtc) == Some(origin.serverUtc)
    requires SameSession(origin, phase, now) && Less(UtcKey(phase.utc).value, origin.serverUtc)
    requires row in origin.rows && Blocking(row, phase.spid)
    ensures Proves(origin, phase, now)
  {
    LaterThanStart(origin, phase);
    var j :| 0 <= j < |origin.rows| && origin.rows[j] == row;
    assert ShowsBlocker(origin, phase.spid);
  }

  lemma AmongNewest(stored: seq<Sample>, n: nat) returns (k: nat)
    requires n < |Newest(stored)|
    ensures |stored| - KEPT_SAMPLES <= k < |stored| && stored[k] == Newest(stored)[n]
  {
    k := n + |stored| - |Newest(stored)|;
  }

  lemma OriginProves(stored: seq<Sample>, phase: Marker, start: string, now: real, s: Sample, row: Row) returns (k: nat)
    requires KeysOk(stored) && UtcKey(phase.utc) == Some(start)
    requires s in Attributed(Newest(stored), phase, start, now) && s.phase == Some(phase)
    requires row in s.rows && Blocking(row, phase.spid)
    ensures |stored| - KEPT_SAMPLES <= k < |stored| && Proves(stored[k], phase, now) && row in stored[k].rows
  {
    var n := AttributedOrigin(Newest(stored), phase, start, now, s);
    k := AmongNewest(stored, n);
    OriginIsEvidence(stored[k], phase, now, row);
  }

  lemma FrozenRowIsShown(es: seq<Event>, expected: bool, s: Sample, row: Row)
    requires var r := Finish(Run(es), expected);
      r.phase.Some? && s in r.samples && s.phase == r.phase && row in s.rows && Blocking(row, r.phase.value.spid)
    ensures exists i: nat, k: nat :: ShownBy(es, i, k, Finish(Run(es), expected).phase, row)
  {
    if n: nat :| TriggerAt(es, n) {
      var i := TriggerExists(es, n);
      FrozenContents(es, i);
      StoredKeysOk(es[..i]);
      var phase := Finish(Run(es), expected).phase;
      var k := OriginProves(Stored(es[..i]), phase.value, UtcKey(phase.value.utc).value, es[i].now, s, row);
      assert ShownBy(es, i, k, phase, row);
    } else {
      NothingFrozen(es, es);
    }
  }

  /** From the events to the printed summary, whatever was cut on the way: a summary
    * that claims a blocker was preceded by a first time-out at which one of the
    * newest samples proved it, and begins with the row that shows it. */
  lemma SummaryClaimIsProven(es: seq<Event>, expected: bool, encoded: Report, exitCode: int, size: SummarySize,
                             p: Printed)
    requires EncodedFrom(Finish(Run(es), expected), encoded) && SummaryOf(encoded, exitCode, size, p) && Claims(p)
    ensures RowsOf(p.summary) != [] && p.Indented? && Fits(p.summary, size)
    ensures exists i: nat, k: nat :: ShownBy(es, i, k, p.summary.phase, RowsOf(p.summary)[0])
  {
    ClaimKeepsItsAnchor(encoded, exitCode, size, p);
    EncodedSamples(Finish(Run(es), expected), encoded);
    var s :| s in encoded.samples && RowsOf(p.summary)[0] in s.rows && s.phase == encoded.phase;
    FrozenRowIsShown(es, expected, s, RowsOf(p.summary)[0]);
  }

  lemma TruthfulClaim(r: Report, exitCode: int, size: SummarySize, p: Printed)
    requires Truthful(r) && SummaryOf(r, exitCode, size, p)
    ensures Claims(p) <==> r.status == BlockerObserved && AnchorFits(r, exitCode, size)
  {
    if r.status == BlockerObserved {
      ClaimGivenUpExactly(r, exitCode, size, p);
    } else if Claims(p) {
      ClaimNeedsStatus(r, exitCode, size, p);
    }
  }

  lemma ClaimNeedsStatus(r: Report, exitCode: int, size: SummarySize, p: Printed)
    requires SummaryOf(r, exitCode, size, p) && Claims(p)
    ensures r.status == BlockerObserved
  {
    ClaimKeepsItsAnchor(r, exitCode, size, p);
  }

  /** Conversely a blocker that the encoded report still claims is in the summary if
    * and only if some selection of rows that keeps the anchor fits. */
  lemma ClaimOfRunIsKept(es: seq<Event>, expected: bool, encoded: Report, exitCode: int, size: SummarySize, p: Printed)
    requires EncodedFrom(Finish(Run(es), expected), encoded) && SummaryOf(encoded, exitCode, size, p)
    ensures Claims(p) <==> encoded.status == BlockerObserved && AnchorFits(encoded, exitCode, size)
  {
    EncodedIsTruthful(Run(es), expected, encoded);
    TruthfulClaim(encoded, exitCode, size, p);
  }
}
