/** Coverage verdicts about one reported metric series. */
module SeriesCoverage {
  import opened Common

  datatype Kind = FinalValue | Cumulative | OtherKind

  datatype Value = Known(value: nat) | UnknownValue(reason: string)

  datatype Observation = Observation(sequence: nat, at: string, value: Value, final: Option<bool>)

  datatype Error = FinalValueRequired | FinalObservationRequired | FinalFlagNotAllowed
                 | ConflictingDuplicateSequence | IncompleteSeriesHasFinalWatermark | FinalSeriesConstraint

  datatype Coverage =
    | ResetUnknown | SequenceGap | UnknownValues | CumulativeDecrease | IdenticalDuplicate(count: nat) | Incomplete

  /** `final` is absent unless the report states it; sequences start at one. */
  datatype Series = Series(
    kind: Kind, zeroKnown: bool, expected: Option<nat>, completed: bool, observations: seq<Observation>)

  // ---------- one observation ----------

  function Problem(kind: Kind, o: Observation): Option<Error> {
    if o.value.UnknownValue? && kind == FinalValue then Some(FinalValueRequired)
    else if kind == FinalValue && o.final != Some(true) then Some(FinalObservationRequired)
    else if kind != FinalValue && o.final == Some(true) then Some(FinalFlagNotAllowed)
    else None
  }

  datatype Collected = Collected(bySequence: map<nat, Observation>, duplicates: nat)

  function Add(kind: Kind, c: Collected, o: Observation): Result<Collected, Error> {
    var p := Problem(kind, o);
    if p.Some? then Err(p.value)
    else if o.sequence !in c.bySequence then Ok(c.(bySequence := c.bySequence[o.sequence := o]))
    else if c.bySequence[o.sequence] == o then Ok(c.(duplicates := c.duplicates + 1))
    else Err(ConflictingDuplicateSequence)
  }

  function Collect(kind: Kind, os: seq<Observation>): Result<Collected, Error> {
    if os == [] then Ok(Collected(map[], 0))
    else
      match Collect(kind, os[..|os| - 1])
      case Err(e) => Err(e)
      case Ok(c) => Add(kind, c, os[|os| - 1])
  }

  // ---------- the verdicts as the validator computes them ----------

  /** The members of `s`, each once, in increasing order. */
  ghost predicate Lists(s: set<nat>, r: seq<nat>) {
    |r| == |s| && (forall x :: x in r <==> x in s) && forall i, j | 0 <= i < j < |r| :: r[i] < r[j]
  }

  lemma LeastFirst(s: set<nat>, m: nat, rest: seq<nat>)
    requires m in s && (forall x | x in s :: m <= x) && Lists(s - {m}, rest)
    ensures Lists(s, [m] + rest)
  {
    var r := [m] + rest;
    assert |s - {m}| == |s| - 1;
    forall x ensures x in r <==> x in s {
      assert x in r <==> x == m || x in rest;
    }
    forall i, j | 0 <= i < j < |r| ensures r[i] < r[j] {
      assert r[j] == rest[j - 1] && rest[j - 1] in rest;
    }
  }

  function Ascending(s: set<nat>): (r: seq<nat>)
    ensures Lists(s, r)
    decreases |s|
  {
    if s == {} then []
    else
      var m := Least(s);
      assert |s - {m}| == |s| - 1;
      var rest := Ascending(s - {m});
      LeastFirst(s, m, rest);
      [m] + rest
  }

  predicate GapTest(sequences: seq<nat>, expected: Option<nat>) {
    || expected.None? || sequences == [] || sequences[0] != 1
    || sequences[|sequences| - 1] != expected.value || |sequences| != expected.value
  }

  function KnownValues(m: map<nat, Observation>, keys: seq<nat>): (r: seq<nat>)
    requires forall i | 0 <= i < |keys| :: keys[i] in m
  {
    if keys == [] then []
    else
      var rest := KnownValues(m, keys[1..]);
      if m[keys[0]].value.Known? then [m[keys[0]].value.value] + rest else rest
  }

  predicate DropsSomewhere(values: seq<nat>) {
    exists i, j | 0 <= i < |values| && j == i + 1 && j < |values| :: values[j] < values[i]
  }

  function AddIf(v: seq<Coverage>, b: bool, x: Coverage): (r: seq<Coverage>)
    ensures forall y :: y in r <==> y in v || (b && y == x)
  {
    if b then v + [x] else v
  }

  /** What is found out about a series, and its verdicts in the order of reporting. */
  datatype Facts = Facts(
    reset: bool, gap: bool, unknown: bool, decrease: bool, duplicates: nat, incomplete: bool)

  function Listed(f: Facts): seq<Coverage> {
    var early := AddIf(AddIf(AddIf([], f.reset, ResetUnknown), f.gap, SequenceGap), f.unknown, UnknownValues);
    var late := AddIf(early, f.decrease, CumulativeDecrease);
    AddIf(AddIf(late, f.duplicates > 0, IdenticalDuplicate(f.duplicates)), f.incomplete, Incomplete)
  }

  predicate HoldsUnknown(m: map<nat, Observation>) {
    exists k | k in m :: m[k].value.UnknownValue?
  }

  function FactsOf(s: Series, c: Collected): Facts {
    var keys := Ascending(c.bySequence.Keys);
    Facts(s.kind == Cumulative && !s.zeroKnown,
          s.completed && GapTest(keys, s.expected),
          HoldsUnknown(c.bySequence),
          s.kind == Cumulative && DropsSomewhere(KnownValues(c.bySequence, keys)),
          c.duplicates,
          !s.completed)
  }

  function Verdicts(s: Series, c: Collected): seq<Coverage> {
    Listed(FactsOf(s, c))
  }

  lemma ListedExactly(f: Facts)
    ensures var v := Listed(f);
      && (ResetUnknown in v <==> f.reset) && (SequenceGap in v <==> f.gap) && (UnknownValues in v <==> f.unknown)
      && (CumulativeDecrease in v <==> f.decrease) && (Incomplete in v <==> f.incomplete)
      && (forall n :: IdenticalDuplicate(n) in v <==> n == f.duplicates > 0)
  {
  }

  /** The place of a verdict in every report. */
  function Place(v: Coverage): nat {
    match v
    case ResetUnknown => 0
    case SequenceGap => 1
    case UnknownValues => 2
    case CumulativeDecrease => 3
    case IdenticalDuplicate(_) => 4
    case Incomplete => 5
  }

  predicate InPlace(v: seq<Coverage>) {
    forall i, j | 0 <= i < j < |v| :: Place(v[i]) < Place(v[j])
  }

  predicate AllBefore(v: seq<Coverage>, place: nat) {
    forall i | 0 <= i < |v| :: Place(v[i]) < place
  }

  lemma AddedInPlace(v: seq<Coverage>, b: bool, x: Coverage)
    requires InPlace(v) && AllBefore(v, Place(x))
    ensures InPlace(AddIf(v, b, x)) && AllBefore(AddIf(v, b, x), Place(x) + 1)
  {
  }

  /** Verdicts are reported in one fixed order, each once. */
  lemma ListedInPlace(f: Facts)
    ensures InPlace(Listed(f))
  {
    var reset := AddIf([], f.reset, ResetUnknown);
    var gap := AddIf(reset, f.gap, SequenceGap);
    var unknown := AddIf(gap, f.unknown, UnknownValues);
    var late := AddIf(unknown, f.decrease, CumulativeDecrease);
    var duplicates := AddIf(late, f.duplicates > 0, IdenticalDuplicate(f.duplicates));
    AddedInPlace([], f.reset, ResetUnknown);
    AddedInPlace(reset, f.gap, SequenceGap);
    AddedInPlace(gap, f.unknown, UnknownValues);
    AddedInPlace(unknown, f.decrease, CumulativeDecrease);
    AddedInPlace(late, f.duplicates > 0, IdenticalDuplicate(f.duplicates));
    AddedInPlace(duplicates, f.incomplete, Incomplete);
  }

  function Judge(s: Series): Result<seq<Coverage>, Error> {
    match Collect(s.kind, s.observations)
    case Err(e) => Err(e)
    case Ok(c) =>
      if !s.completed && s.expected.Some? then Err(IncompleteSeriesHasFinalWatermark)
      else if s.kind == FinalValue && (!s.completed || c.bySequence.Keys != {1} || s.expected != Some(1)) then
        Err(FinalSeriesConstraint)
      else Ok(Verdicts(s, c))
  }

  method JudgeSeries(s: Series) returns (r: Result<seq<Coverage>, Error>)
    ensures r == Judge(s)
  {
    var bySequence: map<nat, Observation>, duplicates := map[], 0;
    for i := 0 to |s.observations|
      invariant Collect(s.kind, s.observations[..i]) == Ok(Collected(bySequence, duplicates))
    {
      var o := s.observations[i];
      assert s.observations[..i + 1][..i] == s.observations[..i];
      ghost var next := Add(s.kind, Collected(bySequence, duplicates), o);
      assert Collect(s.kind, s.observations[..i + 1]) == next;
      var p := Problem(s.kind, o);
      if p.Some? {
        ErrorStays(s.kind, s.observations, i + 1);
        return Err(p.value);
      }
      if o.sequence !in bySequence {
        bySequence := bySequence[o.sequence := o];
      } else if bySequence[o.sequence] == o {
        duplicates := duplicates + 1;
      } else {
        ErrorStays(s.kind, s.observations, i + 1);
        return Err(ConflictingDuplicateSequence);
      }
    }
    assert s.observations[..|s.observations|] == s.observations;
    if !s.completed && s.expected.Some? {
      return Err(IncompleteSeriesHasFinalWatermark);
    }
    if s.kind == FinalValue && (!s.completed || bySequence.Keys != {1} || s.expected != Some(1)) {
      return Err(FinalSeriesConstraint);
    }
    r := Ok(Verdicts(s, Collected(bySequence, duplicates)));
  }

  lemma {:induction false} ErrorStays(kind: Kind, os: seq<Observation>, n: nat)
    requires n <= |os| && Collect(kind, os[..n]).Err?
    ensures Collect(kind, os) == Collect(kind, os[..n])
    decreases |os|
  {
    if n == |os| {
      assert os[..n] == os;
    } else {
      assert os[..|os| - 1][..n] == os[..n];
      ErrorStays(kind, os[..|os| - 1], n);
    }
  }

  // ---------- what was collected ----------

  /** Equal sequence numbers only occur on identical observations. */
  predicate Consistent(os: seq<Observation>) {
    forall i, j | 0 <= i < |os| && 0 <= j < |os| && os[i].sequence == os[j].sequence :: os[i] == os[j]
  }

  /** A final value is known and flagged as final; nothing else is flagged. */
  predicate Allowed(kind: Kind, o: Observation) {
    if kind == FinalValue then o.value.Known? && o.final == Some(true) else o.final != Some(true)
  }

  predicate AllAllowed(kind: Kind, os: seq<Observation>) {
    forall i | 0 <= i < |os| :: Allowed(kind, os[i])
  }

  ghost predicate Describes(c: Collected, os: seq<Observation>) {
    && (forall i | 0 <= i < |os| :: os[i].sequence in c.bySequence && c.bySequence[os[i].sequence] == os[i])
    && (forall k | k in c.bySequence :: c.bySequence[k] in os && c.bySequence[k].sequence == k)
    && c.duplicates == |os| - |c.bySequence|
  }

  lemma {:induction false} CollectExactly(kind: Kind, os: seq<Observation>)
    ensures match Collect(kind, os)
      case Ok(c) => AllAllowed(kind, os) && Consistent(os) && Describes(c, os)
      case Err(_) => !(AllAllowed(kind, os) && Consistent(os))
  {
    if os != [] {
      var before, o := os[..|os| - 1], os[|os| - 1];
      CollectExactly(kind, before);
      assert os == before + [o];
      PrefixAcceptable(kind, before, o);
      if Collect(kind, before).Ok? {
        AddExactly(kind, before, o, Collect(kind, before).value);
      }
    }
  }

  lemma PrefixAcceptable(kind: Kind, before: seq<Observation>, o: Observation)
    ensures AllAllowed(kind, before + [o]) && Consistent(before + [o]) ==>
      AllAllowed(kind, before) && Consistent(before)
  {
    assert forall i | 0 <= i < |before| :: (before + [o])[i] == before[i];
  }

  lemma AddExactly(kind: Kind, before: seq<Observation>, o: Observation, c: Collected)
    requires AllAllowed(kind, before) && Consistent(before) && Describes(c, before)
    ensures match Add(kind, c, o)
      case Ok(d) => AllAllowed(kind, before + [o]) && Consistent(before + [o]) && Describes(d, before + [o])
      case Err(_) => !(AllAllowed(kind, before + [o]) && Consistent(before + [o]))
  {
    var os := before + [o];
    assert os[|before|] == o;
    if Problem(kind, o).None? && o.sequence in c.bySequence && c.bySequence[o.sequence] != o {
      var i :| 0 <= i < |before| && before[i] == c.bySequence[o.sequence];
      assert os[i] == before[i];
    }
  }

  // ---------- gaps ----------

  /** The numbers from one to `n`. */
  function UpTo(n: nat): (s: set<nat>)
    ensures |s| == n && forall x: nat :: x in s <==> 1 <= x <= n
  {
    if n == 0 then {} else UpTo(n - 1) + {n}
  }

  lemma Bounds(s: set<nat>, r: seq<nat>)
    requires s != {} && r == Ascending(s)
    ensures r != [] && r[0] in s && r[|r| - 1] in s && forall x | x in s :: r[0] <= x <= r[|r| - 1]
  {
    var x :| x in s;
    assert x in r && r[0] in r && r[|r| - 1] in r;
    forall x | x in s ensures r[0] <= x <= r[|r| - 1] {
      assert x in r;
      var i :| 0 <= i < |r| && r[i] == x;
    }
  }

  lemma FullFromBounds(keys: set<nat>, expected: nat)
    requires |keys| == expected && forall x | x in keys :: 1 <= x <= expected
    ensures keys == UpTo(expected)
  {
    assert keys <= UpTo(expected);
    SubsetSize(keys, UpTo(expected));
  }

  /** First, last and count decide the gap test exactly: it passes if and only if the
    * distinct sequence numbers are those from one to the expected final one. */
  lemma GapExactly(keys: set<nat>, r: seq<nat>, expected: nat)
    requires expected >= 1 && r == Ascending(keys)
    ensures GapTest(r, Some(expected)) <==> keys != UpTo(expected)
  {
    var full := UpTo(expected);
    assert keys == full ==> expected in keys;
    if keys != {} {
      Bounds(keys, r);
      if keys == full {
        FullHasNoGap(keys, r, expected);
      }
      if |keys| == expected && r[0] == 1 && r[|r| - 1] == expected {
        FullFromBounds(keys, expected);
      }
    }
  }

  lemma FullHasNoGap(keys: set<nat>, r: seq<nat>, expected: nat)
    requires expected >= 1 && |r| == expected && forall x: nat :: x in keys <==> 1 <= x <= expected
    requires r[0] in keys && r[|r| - 1] in keys && forall x | x in keys :: r[0] <= x <= r[|r| - 1]
    ensures !GapTest(r, Some(expected))
  {
    assert 1 in keys && expected in keys;
  }

  // ---------- decreases ----------

  predicate NonDecreasing(values: seq<nat>) {
    forall i, j | 0 <= i < j < |values| :: values[i] <= values[j]
  }

  lemma {:induction false} AdjacentDecides(values: seq<nat>)
    ensures DropsSomewhere(values) <==> !NonDecreasing(values)
    decreases |values|
  {
    if |values| > 1 {
      var n := |values| - 1;
      var front := values[..n];
      AdjacentDecides(front);
      if DropsSomewhere(front) {
        var i, j :| 0 <= i < |front| && j == i + 1 && j < |front| && front[j] < front[i];
        assert values[j] < values[i];
      } else if !(values[n] < values[n - 1]) {
        assert forall i | 0 <= i < n :: values[i] == front[i] && values[i] <= values[n];
      }
    }
  }

  predicate Drops(m: map<nat, Observation>, a: nat, b: nat) {
    a in m && b in m && m[a].value.Known? && m[b].value.Known? && m[a].value.value > m[b].value.value
  }

  /** Some known value is larger than a known value with a later number. */
  ghost predicate Falls(m: map<nat, Observation>, keys: seq<nat>)
    requires forall i | 0 <= i < |keys| :: keys[i] in m
  {
    exists i, j | 0 <= i < j < |keys| :: Drops(m, keys[i], keys[j])
  }

  lemma {:induction false} KnownMembers(m: map<nat, Observation>, keys: seq<nat>, v: nat)
    requires forall i | 0 <= i < |keys| :: keys[i] in m
    ensures v in KnownValues(m, keys) <==> exists i | 0 <= i < |keys| :: m[keys[i]].value == Known(v)
  {
    if keys != [] {
      KnownMembers(m, keys[1..], v);
      if i :| 1 <= i < |keys| && m[keys[i]].value == Known(v) { assert keys[1..][i - 1] == keys[i]; }
      if i :| 0 <= i < |keys[1..]| && m[keys[1..][i]].value == Known(v) { assert keys[1..][i] == keys[i + 1]; }
    }
  }

  lemma FallsFirst(m: map<nat, Observation>, keys: seq<nat>)
    requires keys != [] && forall i | 0 <= i < |keys| :: keys[i] in m
    ensures Falls(m, keys) <==>
      Falls(m, keys[1..]) || (m[keys[0]].value.Known? && LowerLater(m, keys, m[keys[0]].value.value))
  {
    var rest := keys[1..];
    assert forall i | 0 <= i < |rest| :: rest[i] == keys[i + 1];
    if i, j :| 1 <= i < j < |keys| && Drops(m, keys[i], keys[j]) {
      assert rest[i - 1] == keys[i] && rest[j - 1] == keys[j];
    }
    if i, j :| 0 <= i < j < |rest| && Drops(m, rest[i], rest[j]) {
      assert rest[i] == keys[i + 1] && rest[j] == keys[j + 1];
    }
  }

  lemma NonDecreasingFirst(v: nat, rest: seq<nat>)
    ensures NonDecreasing([v] + rest) <==> NonDecreasing(rest) && forall x | x in rest :: v <= x
  {
    var all := [v] + rest;
    assert forall i | 0 <= i < |rest| :: rest[i] == all[i + 1];
    assert forall j | 1 <= j < |all| :: all[j] in rest;
    if NonDecreasing(all) {
      forall x | x in rest ensures v <= x {
        var i :| 0 <= i < |rest| && rest[i] == x;
        assert all[0] <= all[i + 1];
      }
    }
  }

  lemma {:induction false} KnownValuesFall(m: map<nat, Observation>, keys: seq<nat>)
    requires forall i | 0 <= i < |keys| :: keys[i] in m
    ensures NonDecreasing(KnownValues(m, keys)) <==> !Falls(m, keys)
  {
    if keys != [] {
      var rest := KnownValues(m, keys[1..]);
      KnownValuesFall(m, keys[1..]);
      FallsFirst(m, keys);
      if m[keys[0]].value.Known? {
        NonDecreasingFirst(m[keys[0]].value.value, rest);
        SmallerLater(m, keys, m[keys[0]].value.value);
      }
    }
  }

  predicate Below(m: map<nat, Observation>, k: nat, v: nat) {
    k in m && m[k].value.Known? && m[k].value.value < v
  }

  ghost predicate LowerLater(m: map<nat, Observation>, keys: seq<nat>, v: nat)
    requires forall i | 0 <= i < |keys| :: keys[i] in m
  {
    exists j | 1 <= j < |keys| :: Below(m, keys[j], v)
  }

  lemma SmallerLater(m: map<nat, Observation>, keys: seq<nat>, v: nat)
    requires keys != [] && forall i | 0 <= i < |keys| :: keys[i] in m
    ensures (exists x | x in KnownValues(m, keys[1..]) :: x < v) <==> LowerLater(m, keys, v)
  {
    var rest := keys[1..];
    if j :| 1 <= j < |keys| && Below(m, keys[j], v) {
      assert rest[j - 1] == keys[j];
      KnownMembers(m, rest, m[keys[j]].value.value);
    }
    if x :| x in KnownValues(m, rest) && x < v {
      KnownMembers(m, rest, x);
      var i :| 0 <= i < |rest| && m[rest[i]].value == Known(x);
      assert keys[i + 1] == rest[i];
    }
  }

  // ---------- the verdicts about a report ----------

  predicate Later(a: Observation, b: Observation) {
    a.sequence < b.sequence && a.value.Known? && b.value.Known? && a.value.value > b.value.value
  }

  function Numbers(os: seq<Observation>): (s: set<nat>)
    ensures forall k: nat :: k in s <==> exists i | 0 <= i < |os| :: os[i].sequence == k
  {
    set i | 0 <= i < |os| :: os[i].sequence
  }

  ghost predicate AnyLater(os: seq<Observation>) {
    exists i, j | 0 <= i < |os| && 0 <= j < |os| :: Later(os[i], os[j])
  }

  lemma FallFromReport(os: seq<Observation>, c: Collected, keys: seq<nat>)
    requires Describes(c, os) && keys == Ascending(c.bySequence.Keys) && AnyLater(os)
    ensures (forall i | 0 <= i < |keys| :: keys[i] in c.bySequence) && Falls(c.bySequence, keys)
  {
    var i, j :| 0 <= i < |os| && 0 <= j < |os| && Later(os[i], os[j]);
    var x, y := os[i].sequence, os[j].sequence;
    assert Drops(c.bySequence, x, y);
    PositionsInOrder(c.bySequence.Keys, keys, x, y);
  }

  lemma PositionsInOrder(s: set<nat>, keys: seq<nat>, x: nat, y: nat)
    requires keys == Ascending(s) && x in s && y in s && x < y
    ensures forall i | 0 <= i < |keys| :: keys[i] in s
    ensures exists a, b | 0 <= a < b < |keys| :: keys[a] == x && keys[b] == y
  {
    forall i | 0 <= i < |keys| ensures keys[i] in s { assert keys[i] in keys; }
    assert x in keys && y in keys;
    var a :| 0 <= a < |keys| && keys[a] == x;
    var b :| 0 <= b < |keys| && keys[b] == y;
    assert a < b;
  }

  lemma PositionsAscend(s: set<nat>, keys: seq<nat>, a: nat, b: nat)
    requires keys == Ascending(s) && a < b < |keys|
    ensures keys[a] < keys[b]
  {
  }

  lemma ReportFromFall(os: seq<Observation>, c: Collected, keys: seq<nat>)
    requires Describes(c, os) && keys == Ascending(c.bySequence.Keys)
    requires (forall i | 0 <= i < |keys| :: keys[i] in c.bySequence) && Falls(c.bySequence, keys)
    ensures AnyLater(os)
  {
    var m := c.bySequence;
    var a, b :| 0 <= a < b < |keys| && Drops(m, keys[a], keys[b]);
    PositionsAscend(c.bySequence.Keys, keys, a, b);
    var x, y := m[keys[a]], m[keys[b]];
    assert x in os && y in os && Later(x, y);
    var i :| 0 <= i < |os| && os[i] == x;
    var j :| 0 <= j < |os| && os[j] == y;
    assert Later(os[i], os[j]);
  }

  lemma KeysAreStored(c: Collected, keys: seq<nat>)
    requires keys == Ascending(c.bySequence.Keys)
    ensures forall i | 0 <= i < |keys| :: keys[i] in c.bySequence
  {
    assert forall i | 0 <= i < |keys| :: keys[i] in keys;
  }

  lemma FallsIffLater(os: seq<Observation>, c: Collected, keys: seq<nat>)
    requires Describes(c, os) && keys == Ascending(c.bySequence.Keys)
    requires forall i | 0 <= i < |keys| :: keys[i] in c.bySequence
    ensures Falls(c.bySequence, keys) <==> AnyLater(os)
  {
    if AnyLater(os) {
      FallFromReport(os, c, keys);
    } else if Falls(c.bySequence, keys) {
      ReportFromFall(os, c, keys);
    }
  }

  lemma FallsInReport(os: seq<Observation>, c: Collected, keys: seq<nat>)
    requires Describes(c, os) && keys == Ascending(c.bySequence.Keys)
    ensures forall i | 0 <= i < |keys| :: keys[i] in c.bySequence
    ensures DropsSomewhere(KnownValues(c.bySequence, keys)) <==> AnyLater(os)
  {
    KeysAreStored(c, keys);
    AdjacentDecides(KnownValues(c.bySequence, keys));
    KnownValuesFall(c.bySequence, keys);
    FallsIffLater(os, c, keys);
  }

  lemma KeysAreNumbers(os: seq<Observation>, c: Collected)
    requires Describes(c, os)
    ensures c.bySequence.Keys == Numbers(os)
  {
    forall k: nat | k in c.bySequence ensures k in Numbers(os) {
      var i :| 0 <= i < |os| && os[i] == c.bySequence[k];
    }
  }

  /** A report series is accepted exactly when every observation is allowed, repeated
    * numbers repeat the observation, and its watermark fits. */
  ghost predicate Acceptable(s: Series) {
    && AllAllowed(s.kind, s.observations) && Consistent(s.observations)
    && (s.completed || s.expected.None?)
    && (s.kind == FinalValue ==> s.completed && Numbers(s.observations) == {1} && s.expected == Some(1))
  }

  lemma AcceptedExactly(s: Series)
    ensures Judge(s).Ok? <==> Acceptable(s)
  {
    CollectExactly(s.kind, s.observations);
    if Collect(s.kind, s.observations).Ok? {
      KeysAreNumbers(s.observations, Collect(s.kind, s.observations).value);
    }
  }

  lemma JudgedFromCollected(s: Series)
    requires Judge(s).Ok?
    ensures Collect(s.kind, s.observations).Ok? && Describes(Collect(s.kind, s.observations).value, s.observations)
    ensures Judge(s).value == Verdicts(s, Collect(s.kind, s.observations).value)
  {
    CollectExactly(s.kind, s.observations);
  }

  ghost predicate HasGap(s: Series) {
    s.completed && (s.expected.None? || Numbers(s.observations) != UpTo(s.expected.value))
  }

  ghost predicate AnyUnknown(os: seq<Observation>) {
    exists i | 0 <= i < |os| :: os[i].value.UnknownValue?
  }

  lemma GapInReport(s: Series, c: Collected, keys: seq<nat>)
    requires Describes(c, s.observations) && keys == Ascending(c.bySequence.Keys)
    requires s.expected.Some? ==> s.expected.value >= 1
    ensures s.completed && GapTest(keys, s.expected) <==> HasGap(s)
  {
    KeysAreNumbers(s.observations, c);
    if s.expected.Some? { GapExactly(c.bySequence.Keys, keys, s.expected.value); }
  }

  /** The facts of a series, read off its observations alone, and its coverage. */
  ghost function FactsMeant(s: Series): Facts {
    FewerNumbers(s.observations);
    Facts(s.kind == Cumulative && !s.zeroKnown, HasGap(s), AnyUnknown(s.observations),
          s.kind == Cumulative && AnyLater(s.observations), |s.observations| - |Numbers(s.observations)|, !s.completed)
  }

  ghost function Meaning(s: Series): seq<Coverage> {
    Listed(FactsMeant(s))
  }

  lemma {:induction false} FewerNumbers(os: seq<Observation>)
    ensures |Numbers(os)| <= |os|
  {
    if os != [] {
      var before := os[..|os| - 1];
      FewerNumbers(before);
      assert os == before + [os[|os| - 1]];
      assert Numbers(os) == Numbers(before) + {os[|os| - 1].sequence};
    }
  }

  lemma FactsRead(s: Series, c: Collected)
    requires Describes(c, s.observations) && (s.expected.Some? ==> s.expected.value >= 1)
    ensures FactsOf(s, c) == FactsMeant(s)
  {
    var keys := Ascending(c.bySequence.Keys);
    FallsInReport(s.observations, c, keys);
    UnknownInReport(s.observations, c);
    GapInReport(s, c, keys);
    KeysAreNumbers(s.observations, c);
  }

  lemma VerdictsRead(s: Series, c: Collected)
    requires Describes(c, s.observations) && (s.expected.Some? ==> s.expected.value >= 1)
    ensures Verdicts(s, c) == Meaning(s)
  {
    FactsRead(s, c);
  }

  /** The verdict on a series in terms of its observations: a gap exactly when no final
    * number is declared or the distinct numbers are not those from one to it, a
    * decrease exactly when some known value exceeds a later one. */
  lemma JudgedExactly(s: Series)
    requires s.expected.Some? ==> s.expected.value >= 1
    ensures Judge(s).Ok? <==> Acceptable(s)
    ensures Judge(s).Ok? ==> Judge(s).value == Meaning(s)
  {
    AcceptedExactly(s);
    if Judge(s).Ok? {
      JudgedFromCollected(s);
      VerdictsRead(s, Collect(s.kind, s.observations).value);
    }
  }

  lemma UnknownInReport(os: seq<Observation>, c: Collected)
    requires Describes(c, os)
    ensures HoldsUnknown(c.bySequence) <==> AnyUnknown(os)
  {
    if k :| k in c.bySequence && c.bySequence[k].value.UnknownValue? {
      var i :| 0 <= i < |os| && os[i] == c.bySequence[k];
    }
    if i :| 0 <= i < |os| && os[i].value.UnknownValue? {
      assert c.bySequence[os[i].sequence] == os[i];
    }
  }

  /** Reordering or repeating observations changes neither acceptance nor any verdict
    * except the count of duplicates. */
  lemma OrderAndRepetitionDoNotMatter(s: Series, t: Series)
    requires s.kind == t.kind && s.zeroKnown == t.zeroKnown && s.expected == t.expected && s.completed == t.completed
    requires SameObservations(s.observations, t.observations)
    requires s.expected.Some? ==> s.expected.value >= 1
    ensures Judge(s).Ok? == Judge(t).Ok?
    ensures Judge(s).Ok? ==> forall v: Coverage | !v.IdenticalDuplicate? :: v in Judge(s).value <==> v in Judge(t).value
  {
    JudgedExactly(s);
    JudgedExactly(t);
    SameNumbers(s.observations, t.observations);
    SameAcceptance(s.kind, s.observations, t.observations);
    SameVerdicts(s.observations, t.observations);
    SameVerdicts(t.observations, s.observations);
    SameMeaning(s, t);
  }

  lemma SameMeaning(s: Series, t: Series)
    requires s.kind == t.kind && s.zeroKnown == t.zeroKnown && s.expected == t.expected && s.completed == t.completed
    requires Numbers(s.observations) == Numbers(t.observations)
    requires AnyLater(s.observations) == AnyLater(t.observations)
    requires AnyUnknown(s.observations) == AnyUnknown(t.observations)
    ensures forall v: Coverage | !v.IdenticalDuplicate? :: v in Meaning(s) <==> v in Meaning(t)
  {
    FewerNumbers(s.observations);
    FewerNumbers(t.observations);
    SameListed(FactsMeant(s), FactsMeant(t));
  }

  lemma SameListed(f: Facts, g: Facts)
    requires f.(duplicates := 0) == g.(duplicates := 0)
    ensures forall v: Coverage | !v.IdenticalDuplicate? :: v in Listed(f) <==> v in Listed(g)
  {
    ListedExactly(f);
    ListedExactly(g);
  }

  ghost predicate SameObservations(a: seq<Observation>, b: seq<Observation>) {
    (forall i | 0 <= i < |a| :: a[i] in b) && (forall i | 0 <= i < |b| :: b[i] in a)
  }

  lemma SameNumbers(a: seq<Observation>, b: seq<Observation>)
    requires SameObservations(a, b)
    ensures Numbers(a) == Numbers(b)
  {
  }

  lemma SameAcceptance(kind: Kind, a: seq<Observation>, b: seq<Observation>)
    requires SameObservations(a, b)
    ensures AllAllowed(kind, a) == AllAllowed(kind, b) && Consistent(a) == Consistent(b)
  {
    assert Consistent(a) <==> forall x, y | x in a && y in a && x.sequence == y.sequence :: x == y;
    assert Consistent(b) <==> forall x, y | x in b && y in b && x.sequence == y.sequence :: x == y;
  }

  lemma SameVerdicts(a: seq<Observation>, b: seq<Observation>)
    requires SameObservations(a, b)
    ensures AnyLater(a) ==> AnyLater(b)
    ensures AnyUnknown(a) ==> AnyUnknown(b)
  {
    if i, j :| 0 <= i < |a| && 0 <= j < |a| && Later(a[i], a[j]) {
      var k :| 0 <= k < |b| && b[k] == a[i];
      var l :| 0 <= l < |b| && b[l] == a[j];
      assert Later(b[k], b[l]);
    }
  }

  // ---------- which error is reported ----------

  /** What is wrong with observation `n`, given those before it. */
  predicate Faulty(kind: Kind, os: seq<Observation>, n: nat, e: Error) {
    n < |os| &&
    match e
    case FinalValueRequired => kind == FinalValue && os[n].value.UnknownValue?
    case FinalObservationRequired => kind == FinalValue && os[n].value.Known? && os[n].final != Some(true)
    case FinalFlagNotAllowed => kind != FinalValue && os[n].final == Some(true)
    case ConflictingDuplicateSequence =>
      Allowed(kind, os[n]) && exists i | 0 <= i < n :: os[i].sequence == os[n].sequence && os[i] != os[n]
    case _ => false
  }

  ghost predicate FirstFault(kind: Kind, os: seq<Observation>, n: nat, e: Error) {
    Faulty(kind, os, n, e) && forall m: nat, f | m < n :: !Faulty(kind, os, m, f)
  }

  ghost predicate FailsFirst(kind: Kind, os: seq<Observation>, e: Error) {
    exists n: nat :: FirstFault(kind, os, n, e)
  }

  ghost predicate NoFault(kind: Kind, os: seq<Observation>) {
    forall n: nat, e :: !Faulty(kind, os, n, e)
  }

  lemma FaultOfPrefix(kind: Kind, os: seq<Observation>, n: nat, m: nat, e: Error)
    requires m < n <= |os|
    ensures Faulty(kind, os[..n], m, e) == Faulty(kind, os, m, e)
  {
  }

  lemma FirstFaultOfPrefix(kind: Kind, os: seq<Observation>, n: nat, m: nat, e: Error)
    requires m < n <= |os|
    ensures FirstFault(kind, os[..n], m, e) == FirstFault(kind, os, m, e)
  {
    forall k: nat, f | k < n ensures Faulty(kind, os[..n], k, f) == Faulty(kind, os, k, f) {
      FaultOfPrefix(kind, os, n, k, f);
    }
  }

  lemma LastFault(kind: Kind, os: seq<Observation>, c: Collected, e: Error)
    requires os != [] && Describes(c, os[..|os| - 1])
    ensures (Add(kind, c, os[|os| - 1]) == Err(e)) == Faulty(kind, os, |os| - 1, e)
  {
    var n := |os| - 1;
    var before, o := os[..n], os[n];
    if o.sequence in c.bySequence && c.bySequence[o.sequence] != o {
      var i :| 0 <= i < |before| && before[i] == c.bySequence[o.sequence];
      assert os[i] == before[i];
    }
    if i :| 0 <= i < n && os[i].sequence == o.sequence && os[i] != o {
      assert before[i] == os[i];
    }
  }

  lemma NoFaultBefore(kind: Kind, os: seq<Observation>, n: nat)
    requires n <= |os| && NoFault(kind, os[..n])
    ensures forall k: nat, f | k < n :: !Faulty(kind, os, k, f)
  {
    forall k: nat, f | k < n ensures !Faulty(kind, os, k, f) {
      FaultOfPrefix(kind, os, n, k, f);
    }
  }

  lemma AddError(kind: Kind, os: seq<Observation>, c: Collected)
    requires os != [] && Describes(c, os[..|os| - 1]) && NoFault(kind, os[..|os| - 1])
    ensures match Add(kind, c, os[|os| - 1])
      case Err(e) => FailsFirst(kind, os, e)
      case Ok(_) => NoFault(kind, os)
  {
    var n := |os| - 1;
    NoFaultBefore(kind, os, n);
    forall e ensures (Add(kind, c, os[n]) == Err(e)) == Faulty(kind, os, n, e) {
      LastFault(kind, os, c, e);
    }
    var added := Add(kind, c, os[n]);
    assert added.Err? ==> FirstFault(kind, os, n, added.error);
  }

  lemma FailedBefore(kind: Kind, os: seq<Observation>, n: nat, e: Error)
    requires n <= |os| && FailsFirst(kind, os[..n], e)
    ensures FailsFirst(kind, os, e)
  {
    var m: nat :| FirstFault(kind, os[..n], m, e);
    FirstFaultOfPrefix(kind, os, n, m, e);
  }

  /** Collecting fails with the error of the first faulty observation. */
  lemma {:induction false} CollectError(kind: Kind, os: seq<Observation>)
    ensures match Collect(kind, os)
      case Err(e) => FailsFirst(kind, os, e)
      case Ok(_) => NoFault(kind, os)
  {
    if os != [] {
      var n := |os| - 1;
      var before := os[..n];
      CollectError(kind, before);
      CollectExactly(kind, before);
      match Collect(kind, before) {
        case Err(e) =>
          FailedBefore(kind, os, n, e);
        case Ok(c) =>
          AddError(kind, os, c);
          var added := Add(kind, c, os[n]);
          assert Collect(kind, os) == added;
      }
    }
  }

  lemma OneFault(kind: Kind, os: seq<Observation>, n: nat, e: Error, m: nat, f: Error)
    requires FirstFault(kind, os, n, e) && FirstFault(kind, os, m, f)
    ensures n == m && e == f
  {
  }

  /** A watermark error is only reported of a series without faulty observation. */
  predicate WatermarkError(s: Series, e: Error) {
    if !s.completed && s.expected.Some? then e == IncompleteSeriesHasFinalWatermark
    else
      && e == FinalSeriesConstraint && s.kind == FinalValue
      && (!s.completed || Numbers(s.observations) != {1} || s.expected != Some(1))
  }

  lemma FaultyError(s: Series, e: Error, f: Error)
    requires Collect(s.kind, s.observations) == Err(f) && FailsFirst(s.kind, s.observations, f)
    ensures !NoFault(s.kind, s.observations)
    ensures Judge(s) == Err(e) <==> FailsFirst(s.kind, s.observations, e)
  {
    var m: nat :| FirstFault(s.kind, s.observations, m, f);
    if n: nat :| FirstFault(s.kind, s.observations, n, e) {
      OneFault(s.kind, s.observations, n, e, m, f);
    }
  }

  lemma SoundError(s: Series, e: Error, c: Collected)
    requires Collect(s.kind, s.observations) == Ok(c) && Describes(c, s.observations)
    ensures Judge(s) == Err(e) <==> WatermarkError(s, e)
  {
    KeysAreNumbers(s.observations, c);
  }

  /** The error of a series is that of its first faulty observation, or else that of
    * its watermark. */
  lemma ErrorExactly(s: Series, e: Error)
    ensures Judge(s) == Err(e) <==>
      || FailsFirst(s.kind, s.observations, e)
      || (NoFault(s.kind, s.observations) && WatermarkError(s, e))
  {
    CollectError(s.kind, s.observations);
    if Collect(s.kind, s.observations).Err? {
      FaultyError(s, e, Collect(s.kind, s.observations).error);
    } else {
      CollectExactly(s.kind, s.observations);
      SoundError(s, e, Collect(s.kind, s.observations).value);
    }
  }
}
