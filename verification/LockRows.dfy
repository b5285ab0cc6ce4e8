/** Which rows of which sample a lock summary shows, from the rows themselves. */
module LockRows {
  import opened Common
  import opened TextOps
  import opened LockObservation
  import opened LockReport

  /** A request of the session that waits for a lock behind another session. */
  predicate BlockedRequest(row: Row, spid: int) {
    && row.Request? && row.session == spid && row.blocking > 0
    && |row.waitType| >= 4 && row.waitType[0] == 'L' && row.waitType[1] == 'C' && row.waitType[2] == 'K'
    && row.waitType[3] == '_'
  }

  predicate RequestOf(row: Row, session: int) {
    row.Request? && row.session == session
  }

  predicate WaitingLock(row: Row, session: int) {
    row.Lock? && row.session == session && row.status == "WAIT"
  }

  predicate GrantedLock(row: Row, session: int) {
    row.Lock? && row.session == session && row.status == "GRANT"
  }

  lemma BlockedIsBlocking(row: Row, spid: int)
    ensures BlockedRequest(row, spid) == Blocking(row, spid)
  {
    if row.Request? && |row.waitType| >= 4 {
      assert row.waitType[..4] == [row.waitType[0], row.waitType[1], row.waitType[2], row.waitType[3]];
      assert "LCK_" == ['L', 'C', 'K', '_'];
    }
  }

  // ---------- the anchor ----------

  /** The last blocked request. */
  ghost predicate IsAnchor(rows: seq<Row>, spid: int, a: nat) {
    a < |rows| && BlockedRequest(rows[a], spid) && forall j | a < j < |rows| :: !BlockedRequest(rows[j], spid)
  }

  ghost predicate Blocked(rows: seq<Row>, spid: int) {
    exists i | 0 <= i < |rows| :: BlockedRequest(rows[i], spid)
  }

  lemma {:induction false} AnchorIsLast(rows: seq<Row>, spid: int, n: nat)
    requires n <= |rows|
    ensures var r := Anchor(rows, spid, n);
      r.Some? ==> r.value < n && BlockedRequest(rows[r.value], spid)
                  && forall j | r.value < j < n :: !BlockedRequest(rows[j], spid)
    ensures Anchor(rows, spid, n).None? ==> forall j | 0 <= j < n :: !BlockedRequest(rows[j], spid)
  {
    if n > 0 {
      BlockedIsBlocking(rows[n - 1], spid);
      AnchorIsLast(rows, spid, n - 1);
    }
  }

  // ---------- the corroborating rows ----------

  /** The first request of the blocker other than the anchor, if there is one. */
  ghost predicate RequestPart(rows: seq<Row>, blocker: int, a: nat, x: seq<nat>) {
    if exists i | 0 <= i < |rows| :: i != a && RequestOf(rows[i], blocker) then
      && |x| == 1 && x[0] < |rows| && x[0] != a && RequestOf(rows[x[0]], blocker)
      && forall j | 0 <= j < x[0] && j != a :: !RequestOf(rows[j], blocker)
    else x == []
  }

  /** The blocker holds the lock that row `w` waits for, as row `g` says. */
  predicate Held(rows: seq<Row>, spid: int, blocker: int, w: nat, g: nat) {
    && w < |rows| && g < |rows| && WaitingLock(rows[w], spid) && GrantedLock(rows[g], blocker)
    && rows[w].resource == rows[g].resource
  }

  /** The first wait for a lock the blocker holds, and its first grant, if there is one. */
  ghost predicate LockPart(rows: seq<Row>, spid: int, blocker: int, y: seq<nat>) {
    if exists w: nat, g: nat :: Held(rows, spid, blocker, w, g) then
      && |y| == 2 && Held(rows, spid, blocker, y[0], y[1])
      && (forall w: nat, g: nat | w < y[0] :: !Held(rows, spid, blocker, w, g))
      && (forall g: nat | g < y[1] :: !Held(rows, spid, blocker, y[0], g))
    else y == []
  }

  lemma {:induction false} RequestFrom(rows: seq<Row>, blocker: int, a: nat, i: nat)
    requires i <= |rows|
    ensures var r := BlockerRequest(rows, a, blocker, i);
      if r.Some? then
        && i <= r.value < |rows| && r.value != a && RequestOf(rows[r.value], blocker)
        && forall j | i <= j < r.value && j != a :: !RequestOf(rows[j], blocker)
      else forall j | i <= j < |rows| && j != a :: !RequestOf(rows[j], blocker)
    decreases |rows| - i
  {
    if i < |rows| && !(i != a && Matches(rows[i], false, blocker, "")) {
      RequestFrom(rows, blocker, a, i + 1);
    }
  }

  lemma {:induction false} GrantFrom(rows: seq<Row>, blocker: int, resource: seq<string>, i: nat)
    requires i <= |rows|
    ensures var r := Grant(rows, blocker, resource, i);
      if r.Some? then
        && i <= r.value < |rows| && GrantedLock(rows[r.value], blocker) && rows[r.value].resource == resource
        && forall j | i <= j < r.value :: !(GrantedLock(rows[j], blocker) && rows[j].resource == resource)
      else forall j | i <= j < |rows| :: !(GrantedLock(rows[j], blocker) && rows[j].resource == resource)
    decreases |rows| - i
  {
    if i < |rows| && !(Matches(rows[i], true, blocker, "GRANT") && rows[i].resource == resource) {
      GrantFrom(rows, blocker, resource, i + 1);
    }
  }

  /** Some grant is on the resource that row `w` waits for. */
  ghost predicate HeldAtAll(rows: seq<Row>, spid: int, blocker: int, w: nat) {
    exists g: nat :: Held(rows, spid, blocker, w, g)
  }

  lemma HeldByGrant(rows: seq<Row>, spid: int, blocker: int, w: nat)
    requires w < |rows| && WaitingLock(rows[w], spid)
    ensures var r := Grant(rows, blocker, rows[w].resource, 0);
      r.Some? == HeldAtAll(rows, spid, blocker, w)
      && (r.Some? ==> Held(rows, spid, blocker, w, r.value)
                      && forall g: nat | g < r.value :: !Held(rows, spid, blocker, w, g))
  {
    GrantFrom(rows, blocker, rows[w].resource, 0);
    var r := Grant(rows, blocker, rows[w].resource, 0);
    if r.Some? {
      assert Held(rows, spid, blocker, w, r.value);
    }
  }

  lemma {:induction false} PairFrom(rows: seq<Row>, spid: int, blocker: int, i: nat)
    requires i <= |rows|
    ensures var r := Pair(rows, spid, blocker, i);
      if r.Some? then
        && i <= r.value.0 && Held(rows, spid, blocker, r.value.0, r.value.1)
        && (forall w: nat | i <= w < r.value.0 :: !HeldAtAll(rows, spid, blocker, w))
        && (forall g: nat | g < r.value.1 :: !Held(rows, spid, blocker, r.value.0, g))
      else forall w: nat | i <= w :: !HeldAtAll(rows, spid, blocker, w)
    decreases |rows| - i
  {
    if i < |rows| {
      if WaitingLock(rows[i], spid) {
        HeldByGrant(rows, spid, blocker, i);
      }
      if !(WaitingLock(rows[i], spid) && HeldAtAll(rows, spid, blocker, i)) {
        PairFrom(rows, spid, blocker, i + 1);
      }
    }
  }

  lemma PairIsLockPart(rows: seq<Row>, spid: int, blocker: int)
    ensures var r := Pair(rows, spid, blocker, 0);
      LockPart(rows, spid, blocker, if r.Some? then [r.value.0, r.value.1] else [])
  {
    PairFrom(rows, spid, blocker, 0);
    var r := Pair(rows, spid, blocker, 0);
    forall w: nat, g: nat | Held(rows, spid, blocker, w, g) ensures HeldAtAll(rows, spid, blocker, w) {}
    if r.Some? {
      forall w: nat, g: nat | w < r.value.0 ensures !Held(rows, spid, blocker, w, g) {
        assert !HeldAtAll(rows, spid, blocker, w);
      }
    }
  }

  lemma RequestIsRequestPart(rows: seq<Row>, blocker: int, a: nat)
    ensures var r := BlockerRequest(rows, a, blocker, 0);
      RequestPart(rows, blocker, a, if r.Some? then [r.value] else [])
  {
    RequestFrom(rows, blocker, a, 0);
  }

  ghost predicate SupportPart(rows: seq<Row>, spid: int, blocker: int, a: nat, r: seq<nat>) {
    exists x, y :: r == x + y && RequestPart(rows, blocker, a, x) && LockPart(rows, spid, blocker, y)
  }

  /** The corroborating rows are the blocker's request and the pair of locks. */
  lemma SupportExactly(rows: seq<Row>, spid: int, a: nat)
    requires a < |rows| && Blocking(rows[a], spid)
    ensures SupportPart(rows, spid, rows[a].blocking, a, Support(rows, spid, a))
  {
    var blocker := rows[a].blocking;
    var request, pair := BlockerRequest(rows, a, blocker, 0), Pair(rows, spid, blocker, 0);
    RequestIsRequestPart(rows, blocker, a);
    PairIsLockPart(rows, spid, blocker);
    assert Support(rows, spid, a)
        == (if request.Some? then [request.value] else []) + (if pair.Some? then [pair.value.0, pair.value.1] else []);
  }

  // ---------- the other rows ----------

  predicate Corroborates(row: Row, spid: int, blocker: int) {
    || BlockedRequest(row, spid) || RequestOf(row, blocker) || WaitingLock(row, spid) || GrantedLock(row, blocker)
  }

  predicate Ascending(s: seq<nat>) {
    forall k, l | 0 <= k < l < |s| :: s[k] < s[l]
  }

  /** The rows that corroborate nothing, in their order. */
  ghost predicate RestPart(rows: seq<Row>, spid: int, blocker: int, i: nat, z: seq<nat>) {
    Ascending(z) && forall k: nat :: k in z <==> i <= k < |rows| && !Corroborates(rows[k], spid, blocker)
  }

  lemma RestSkips(rows: seq<Row>, spid: int, blocker: int, i: nat, z: seq<nat>)
    requires i < |rows| && RestPart(rows, spid, blocker, i + 1, z) && Corroborates(rows[i], spid, blocker)
    ensures RestPart(rows, spid, blocker, i, z)
  {
  }

  lemma AscendingFirst(i: nat, z: seq<nat>)
    requires Ascending(z) && forall k | k in z :: i < k
    ensures Ascending([i] + z)
  {
    assert forall k | 0 <= k < |z| :: z[k] in z;
  }

  lemma RestTakes(rows: seq<Row>, spid: int, blocker: int, i: nat, z: seq<nat>)
    requires i < |rows| && RestPart(rows, spid, blocker, i + 1, z) && !Corroborates(rows[i], spid, blocker)
    ensures RestPart(rows, spid, blocker, i, [i] + z)
  {
    AscendingFirst(i, z);
    assert forall k: nat :: k in [i] + z <==> k == i || k in z;
  }

  lemma {:induction false} OthersFrom(rows: seq<Row>, spid: int, blocker: int, i: nat)
    requires i <= |rows|
    ensures RestPart(rows, spid, blocker, i, Others(rows, spid, blocker, i))
    decreases |rows| - i
  {
    if i < |rows| {
      BlockedIsBlocking(rows[i], spid);
      OthersFrom(rows, spid, blocker, i + 1);
      if Redundant(rows[i], spid, blocker) {
        RestSkips(rows, spid, blocker, i, Others(rows, spid, blocker, i + 1));
      } else {
        RestTakes(rows, spid, blocker, i, Others(rows, spid, blocker, i + 1));
      }
    }
  }

  // ---------- the layout of a sample ----------

  /** The sample is attributed to the phase and shows its session blocked. */
  ghost predicate ShowsBlocked(sample: Sample, phase: Option<Marker>) {
    phase.Some? && sample.phase == phase && Blocked(sample.rows, phase.value.spid)
  }

  lemma ShownByAnchor(sample: Sample, phase: Option<Marker>)
    ensures HasAnchor(sample, phase) == ShowsBlocked(sample, phase)
  {
    if phase.Some? {
      AnchorIsLast(sample.rows, phase.value.spid, |sample.rows|);
    }
  }

  /** First the anchor, then the corroborating rows, then the others; or, without an
    * anchor, all rows in their order. */
  ghost predicate LaidOut(sample: Sample, phase: Option<Marker>, l: Layout) {
    var rows := sample.rows;
    if ShowsBlocked(sample, phase) then
      exists a: nat ::
        && IsAnchor(rows, phase.value.spid, a) && l.mandatory == [a]
        && SupportPart(rows, phase.value.spid, rows[a].blocking, a, l.support)
        && RestPart(rows, phase.value.spid, rows[a].blocking, 0, l.rest)
    else l.mandatory == [] && l.support == [] && |l.rest| == |rows| && forall k | 0 <= k < |rows| :: l.rest[k] == k
  }

  lemma LayoutExactly(sample: Sample, phase: Option<Marker>)
    ensures LaidOut(sample, phase, LayoutOf(sample, phase))
  {
    ShownByAnchor(sample, phase);
    if ShowsBlocked(sample, phase) {
      var rows, spid := sample.rows, phase.value.spid;
      AnchorIsLast(rows, spid, |rows|);
      var a := Anchor(rows, spid, |rows|).value;
      SupportExactly(rows, spid, a);
      OthersFrom(rows, spid, rows[a].blocking, 0);
    }
  }

  /** Sample `i` is the newest that shows the phase blocked. */
  ghost predicate NewestShown(samples: seq<Sample>, phase: Option<Marker>, i: nat) {
    i < |samples| && ShowsBlocked(samples[i], phase) && forall j | i < j < |samples| :: !ShowsBlocked(samples[j], phase)
  }

  /** The newest sample that shows the phase blocked, or else the newest sample. */
  ghost predicate IsSelected(samples: seq<Sample>, phase: Option<Marker>, r: Option<Sample>) {
    if exists i: nat :: NewestShown(samples, phase, i) then
      exists i: nat :: NewestShown(samples, phase, i) && r == Some(samples[i])
    else r == if samples == [] then None else Some(samples[|samples| - 1])
  }

  lemma {:induction false} SelectedFrom(samples: seq<Sample>, phase: Option<Marker>, n: nat)
    requires n <= |samples| && forall j | n <= j < |samples| :: !ShowsBlocked(samples[j], phase)
    ensures IsSelected(samples, phase, Selected(samples, phase, n))
  {
    if n > 0 {
      ShownByAnchor(samples[n - 1], phase);
      if ShowsBlocked(samples[n - 1], phase) {
        assert NewestShown(samples, phase, n - 1);
      } else {
        SelectedFrom(samples, phase, n - 1);
      }
    } else {
      assert forall i: nat :: !NewestShown(samples, phase, i);
    }
  }

  /** The summary of a report with the given sample selected: its rows in their
    * layout, and the report's status unless it claims what no row shows. */
  ghost predicate SummaryShows(r: Report, exitCode: int, selected: Option<Sample>, s: Summary) {
    var unproven := r.status == BlockerObserved && !(selected.Some? && ShowsBlocked(selected.value, r.phase));
    && s.trigger == r.trigger && s.phase == r.phase && s.errors == Some(r.errors) && s.exitCode == exitCode
    && s.status == (if unproven then BlockerNotCaptured else r.status) && s.truncated == (r.truncated || unproven)
    && match selected
       case None => s.sample == None
       case Some(sample) => exists l: Layout :: LaidOut(sample, r.phase, l) && ShowsRows(sample, l, s)
  }

  /** What a summary shows before anything is cut. */
  lemma SummaryRowsExactly(r: Report, exitCode: int)
    ensures exists selected ::
      IsSelected(r.samples, r.phase, selected) && SummaryShows(r, exitCode, selected, Untrimmed(r, exitCode))
  {
    var selected := Selected(r.samples, r.phase, |r.samples|);
    SelectedFrom(r.samples, r.phase, |r.samples|);
    if selected.Some? {
      LayoutExactly(selected.value, r.phase);
      ShownByAnchor(selected.value, r.phase);
      assert ShowsRows(selected.value, LayoutOf(selected.value, r.phase), Untrimmed(r, exitCode));
    }
    assert SummaryShows(r, exitCode, selected, Untrimmed(r, exitCode));
  }

  /** The summary's sample is the given one with its rows in the order of the layout. */
  ghost predicate ShowsRows(sample: Sample, l: Layout, s: Summary) {
    && s.sample.Some? && s.sample.value.(rows := sample.rows) == sample
    && |RowsOf(s)| == |l.All()|
    && forall k | 0 <= k < |l.All()| :: l.All()[k] < |sample.rows| && RowsOf(s)[k] == sample.rows[l.All()[k]]
  }
}
