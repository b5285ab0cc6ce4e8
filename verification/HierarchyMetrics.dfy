/** Limits that are reported only if every level read the same thing three times. */
module HierarchyMetrics {
  import opened Common
  import opened Ratios

  datatype Key = MemoryMax | MemoryHigh | SwapMax | CpuMax | GroupType | CpusetEffective

  datatype ParseState = NotAttempted | Valid | EmptyObservation | UnsupportedLayout | OtherState(code: nat)

  datatype Parsed =
    | Nothing | Finite(value: nat) | Unlimited | Ratio(numerator: nat, denominator: nat)
    | SupportedDomain | OtherValue

  /** One emitted observation of a file; `rest` stands for the reason and raw text. */
  datatype Record = Record(available: bool, parseState: ParseState, parsed: Parsed, rest: string, ordinal: nat)

  datatype Signature = Signature(available: bool, parseState: ParseState, parsed: Parsed, rest: string)

  function SignatureOf(r: Record): Signature {
    Signature(r.available, r.parseState, r.parsed, r.rest)
  }

  type Phase = (nat, Key) -> Record

  datatype Metric =
    | Unavailable
    | NoFiniteVisibleLimit(ordinals: seq<nat>)
    | Ceiling(value: nat, ordinals: seq<nat>)
    | Quota(numerator: nat, denominator: nat, ordinals: seq<nat>)

  /** The three observations of the files of a hierarchy of `levels` directories. */
  datatype Reads = Reads(levels: nat, initial: Phase, main: Phase, closing: Phase)

  // ---------- agreement ----------

  /** CPU sets are only read at the last level. */
  predicate InScope(r: Reads, level: nat, key: Key) {
    level < r.levels && (key == CpusetEffective ==> level == r.levels - 1)
  }

  /** Two observations that differ at most in their ordinal. */
  predicate SameRead(a: Record, b: Record) {
    a.available == b.available && a.parseState == b.parseState && a.parsed == b.parsed && a.rest == b.rest
  }

  predicate ThreeAlike(r: Reads, level: nat, key: Key) {
    SameRead(r.initial(level, key), r.main(level, key)) && SameRead(r.closing(level, key), r.main(level, key))
  }

  /** Types are read by the two fences only. */
  predicate Alike(r: Reads, level: nat, key: Key) {
    if key == GroupType then SameRead(r.initial(level, key), r.closing(level, key))
    else ThreeAlike(r, level, key)
  }

  ghost predicate Stable(r: Reads, key: Key) {
    forall level | InScope(r, level, key) :: Alike(r, level, key)
  }

  method ChangedKeys(r: Reads) returns (changed: set<Key>)
    requires r.levels > 0
    ensures forall key :: key in changed <==> !Stable(r, key)
  {
    changed := {};
    for level := 0 to r.levels
      invariant forall key | key != CpusetEffective ::
        key in changed <==> exists l | 0 <= l < level :: !Alike(r, l, key)
      invariant CpusetEffective !in changed
    {
      changed := ChangedAt(r, level, changed);
    }
    changed := AddChanged(r, r.levels - 1, CpusetEffective, changed);
  }

  method ChangedAt(r: Reads, level: nat, before: set<Key>) returns (changed: set<Key>)
    ensures forall key :: key in changed <==> key in before || (key != CpusetEffective && !Alike(r, level, key))
  {
    changed := AddChanged(r, level, MemoryMax, before);
    changed := AddChanged(r, level, MemoryHigh, changed);
    changed := AddChanged(r, level, SwapMax, changed);
    changed := AddChanged(r, level, CpuMax, changed);
    changed := AddChanged(r, level, GroupType, changed);
  }

  method AddChanged(r: Reads, level: nat, key: Key, before: set<Key>) returns (changed: set<Key>)
    ensures changed == before + if Alike(r, level, key) then {} else {key}
  {
    var initial, closing := SignatureOf(r.initial(level, key)), SignatureOf(r.closing(level, key));
    var main := SignatureOf(r.main(level, key));
    changed := before;
    if initial != closing || (key != GroupType && main != initial) {
      changed := changed + {key};
    }
  }

  // ---------- metrics ----------

  predicate Readable(rec: Record) {
    rec.available && rec.parseState == Valid && (rec.parsed.Finite? || rec.parsed.Unlimited? || rec.parsed.Ratio?)
  }

  predicate Supported(rec: Record) {
    rec.parseState == Valid && rec.parsed == SupportedDomain
  }

  ghost predicate TypesSupported(r: Reads) {
    forall level | 0 <= level < r.levels ::
      Supported(r.initial(level, GroupType)) && Supported(r.closing(level, GroupType))
  }

  function Ordinals(r: Reads, key: Key, n: nat): (ordinals: seq<nat>)
    ensures |ordinals| == n && forall level | 0 <= level < n :: ordinals[level] == r.main(level, key).ordinal
  {
    if n == 0 then [] else Ordinals(r, key, n - 1) + [r.main(n - 1, key).ordinal]
  }

  /** Every level read the same usable limit all three times. */
  ghost predicate Confirmed(r: Reads, key: Key) {
    ConfirmedUpTo(r, key, r.levels)
  }

  ghost predicate ConfirmedUpTo(r: Reads, key: Key, n: nat) {
    forall level | 0 <= level < n :: ConfirmedAt(r, key, level)
  }

  predicate ConfirmedAt(r: Reads, key: Key, level: nat) {
    var main := r.main(level, key);
    && main.available && main.parseState == Valid
    && (main.parsed.Finite? || main.parsed.Unlimited? || main.parsed.Ratio?)
    && ThreeAlike(r, level, key)
  }

  /** The value is the smallest finite limit among the first `n` levels. */
  ghost predicate Smallest(r: Reads, key: Key, n: nat, value: nat) {
    && (exists level | 0 <= level < n :: r.main(level, key).parsed == Finite(value))
    && (forall level | 0 <= level < n && r.main(level, key).parsed.Finite? :: value <= r.main(level, key).parsed.value)
  }

  /** What a memory or swap metric must be. */
  ghost predicate IsCeiling(r: Reads, key: Key, changed: set<Key>, m: Metric) {
    if key in changed || !Confirmed(r, key) then m == Unavailable
    else if forall level | 0 <= level < r.levels :: !r.main(level, key).parsed.Finite? then
      m == NoFiniteVisibleLimit(Ordinals(r, key, r.levels))
    else m.Ceiling? && m.ordinals == Ordinals(r, key, r.levels) && Smallest(r, key, r.levels, m.value)
  }

  method ConfirmLevel(r: Reads, level: nat, key: Key) returns (ok: bool)
    ensures ok <==> ConfirmedAt(r, key, level)
  {
    var main := r.main(level, key);
    ok := Readable(main);
    if SignatureOf(r.initial(level, key)) != SignatureOf(main)
       || SignatureOf(r.closing(level, key)) != SignatureOf(main) {
      ok := false;
    }
  }

  method LimitMetric(r: Reads, key: Key, changed: set<Key>) returns (m: Metric)
    ensures IsCeiling(r, key, changed, m)
  {
    if key in changed {
      return Unavailable;
    }
    var least: Option<nat> := None;
    for level := 0 to r.levels
      invariant ConfirmedUpTo(r, key, level)
      invariant match least
        case None => forall l | 0 <= l < level :: !r.main(l, key).parsed.Finite?
        case Some(v) => Smallest(r, key, level, v)
    {
      var main := r.main(level, key);
      var usable := ConfirmLevel(r, level, key);
      if !usable {
        return Unavailable;
      }
      if main.parsed.Finite? {
        least := Some(if least.Some? then Min(least.value, main.parsed.value) else main.parsed.value);
      }
    }
    var ordinals := Ordinals(r, key, r.levels);
    m := if least.None? then NoFiniteVisibleLimit(ordinals) else Ceiling(least.value, ordinals);
  }

  // ---------- the quota ratio ----------

  /** p / q is at most s / t. */
  predicate AtMost(p: nat, q: nat, s: nat, t: nat) {
    p * t <= s * q
  }

  predicate SameRatio(p: nat, q: nat, s: nat, t: nat) {
    p * t == s * q
  }

  /** How a quota and a period, both positive, are read from the file. */
  function QuotaOf(quota: nat, period: nat): Parsed
    requires quota > 0 && period > 0
  {
    var g := Gcd(quota, period);
    Ratio(quota / g, period / g)
  }

  /** The stored ratio is in lowest terms and of the same value. */
  lemma QuotaIsReduced(quota: nat, period: nat)
    requires quota > 0 && period > 0
    ensures var r := QuotaOf(quota, period);
      r.numerator > 0 && LowestTerms(r.numerator, r.denominator) && SameRatio(r.numerator, r.denominator, quota, period)
  {
    ReducedIsLowest(quota, period);
  }

  predicate RatiosPositive(r: Reads) {
    forall level | 0 <= level < r.levels && r.main(level, CpuMax).parsed.Ratio? ::
      r.main(level, CpuMax).parsed.numerator > 0 && r.main(level, CpuMax).parsed.denominator > 0
  }

  /** A level's quota: the ratio the kernel file gave for it. */
  predicate QuotaAt(r: Reads, level: nat, p: nat, q: nat) {
    r.main(level, CpuMax).parsed == Ratio(p, q)
  }

  /** The ratio is in value the smallest among the first `n` levels. */
  ghost predicate SmallestRatio(r: Reads, n: nat, p: nat, q: nat) {
    && q > 0
    && (exists level, s, t | 0 <= level < n && QuotaAt(r, level, s, t) :: SameRatio(p, q, s, t))
    && (forall level, s, t | 0 <= level < n && QuotaAt(r, level, s, t) :: AtMost(p, q, s, t))
  }

  /** An empty CPU set is read but does not count as usable. */
  predicate CpusetUsable(rec: Record) {
    rec.available && rec.parseState == Valid
  }

  /** The last level's CPU set was read, valid and alike three times. */
  predicate CpusetConfirmed(r: Reads)
    requires r.levels > 0
  {
    var main := r.main(r.levels - 1, CpusetEffective);
    main.available && main.parseState == Valid && ThreeAlike(r, r.levels - 1, CpusetEffective)
  }

  /** What the CPU quota metric must be. */
  ghost predicate IsQuota(r: Reads, changed: set<Key>, m: Metric)
    requires r.levels > 0
  {
    if CpuMax in changed || CpusetEffective in changed || !Confirmed(r, CpuMax) || !CpusetConfirmed(r)
    then m == Unavailable
    else if forall level | 0 <= level < r.levels :: !r.main(level, CpuMax).parsed.Ratio? then
      m == NoFiniteVisibleLimit(Ordinals(r, CpuMax, r.levels))
    else
      && m.Quota? && m.ordinals == Ordinals(r, CpuMax, r.levels)
      && LowestTerms(m.numerator, m.denominator) && SmallestRatio(r, r.levels, m.numerator, m.denominator)
  }

  lemma AtMostTrans(a: nat, b: nat, c: nat, d: nat, e: nat, f: nat)
    requires b > 0 && d > 0 && f > 0 && AtMost(a, b, c, d) && AtMost(c, d, e, f)
    ensures AtMost(a, b, e, f)
  {
    TimesGrows(a * d, c * b, f);
    TimesGrows(c * f, e * d, b);
    Rearranged(a, b, c, d, e, f);
    if a * f > e * b {
      TimesGrows(e * b + 1, a * f, d);
    }
  }

  lemma Rearranged(a: nat, b: nat, c: nat, d: nat, e: nat, f: nat)
    ensures (a * d) * f == (a * f) * d && (c * b) * f == (c * f) * b && (e * d) * b == (e * b) * d
  {
  }

  /** The better of the smallest ratio so far and the next level's. */
  lemma SmallestSoFar(r: Reads, n: nat, p: nat, q: nat, s: nat, t: nat)
    requires SmallestRatio(r, n, p, q) && QuotaAt(r, n, s, t) && t > 0 && RatiosPositive(r) && n < r.levels
    ensures AtMost(p, q, s, t) ==> SmallestRatio(r, n + 1, p, q)
    ensures AtMost(s, t, p, q) ==> SmallestRatio(r, n + 1, s, t)
  {
    if AtMost(s, t, p, q) {
      forall level, x, y | 0 <= level < n + 1 && QuotaAt(r, level, x, y) ensures AtMost(s, t, x, y) {
        if level < n { AtMostTrans(s, t, p, q, x, y); }
      }
      assert SameRatio(s, t, s, t);
    }
  }

  /** Putting the ratio in lowest terms keeps its value. */
  lemma SmallestReduced(r: Reads, n: nat, p: nat, q: nat)
    requires SmallestRatio(r, n, p, q) && p > 0 && n <= r.levels && RatiosPositive(r)
    ensures var g := Gcd(p, q); SmallestRatio(r, n, p / g, q / g) && LowestTerms(p / g, q / g)
  {
    ReducedIsLowest(p, q);
    var g := Gcd(p, q);
    var a, b := p / g, q / g;
    var level, s, t :| 0 <= level < n && QuotaAt(r, level, s, t) && SameRatio(p, q, s, t);
    SameTrans(a, b, p, q, s, t);
    forall l, x, y | 0 <= l < n && QuotaAt(r, l, x, y) ensures AtMost(a, b, x, y) {
      AtMostTrans(a, b, p, q, x, y);
    }
  }

  lemma SameTrans(a: nat, b: nat, c: nat, d: nat, e: nat, f: nat)
    requires b > 0 && d > 0 && f > 0 && SameRatio(a, b, c, d) && SameRatio(c, d, e, f)
    ensures SameRatio(a, b, e, f)
  {
    AtMostTrans(a, b, c, d, e, f);
    AtMostTrans(e, f, c, d, a, b);
  }

  method ConfirmCpuset(r: Reads) returns (ok: bool)
    requires r.levels > 0
    ensures ok <==> CpusetConfirmed(r)
  {
    var last := r.levels - 1;
    var cpuset := SignatureOf(r.main(last, CpusetEffective));
    ok := CpusetUsable(r.main(last, CpusetEffective));
    if SignatureOf(r.initial(last, CpusetEffective)) != cpuset
       || SignatureOf(r.closing(last, CpusetEffective)) != cpuset {
      ok := false;
    }
  }

  method QuotaMetric(r: Reads, changed: set<Key>) returns (m: Metric)
    requires r.levels > 0 && RatiosPositive(r)
    ensures IsQuota(r, changed, m)
  {
    if CpuMax in changed || CpusetEffective in changed {
      return Unavailable;
    }
    var least: Option<(nat, nat)> := None;
    for level := 0 to r.levels
      invariant ConfirmedUpTo(r, CpuMax, level)
      invariant match least
        case None => forall l | 0 <= l < level :: !r.main(l, CpuMax).parsed.Ratio?
        case Some(v) => v.0 > 0 && SmallestRatio(r, level, v.0, v.1)
    {
      var main := r.main(level, CpuMax);
      var usable := ConfirmLevel(r, level, CpuMax);
      if !usable {
        return Unavailable;
      }
      if main.parsed.Ratio? {
        least := Smaller(r, level, least, main.parsed.numerator, main.parsed.denominator);
      }
    }
    var usable := ConfirmCpuset(r);
    if !usable {
      return Unavailable;
    }
    if least.None? {
      return NoFiniteVisibleLimit(Ordinals(r, CpuMax, r.levels));
    }
    var p, q := least.value.0, least.value.1;
    SmallestReduced(r, r.levels, p, q);
    var g := Gcd(p, q);
    m := Quota(p / g, q / g, Ordinals(r, CpuMax, r.levels));
  }

  method Smaller(r: Reads, level: nat, least: Option<(nat, nat)>, p: nat, q: nat) returns (m: Option<(nat, nat)>)
    requires level < r.levels && RatiosPositive(r) && QuotaAt(r, level, p, q)
    requires match least
      case None => forall l | 0 <= l < level :: !r.main(l, CpuMax).parsed.Ratio?
      case Some(v) => v.0 > 0 && SmallestRatio(r, level, v.0, v.1)
    ensures m.Some? && m.value.0 > 0 && SmallestRatio(r, level + 1, m.value.0, m.value.1)
  {
    if least.None? {
      assert SameRatio(p, q, p, q);
      return Some((p, q));
    }
    SmallestSoFar(r, level, least.value.0, least.value.1, p, q);
    m := if p * least.value.1 < least.value.0 * q then Some((p, q)) else least;
  }

  // ---------- what a reported limit means ----------

  /** The tightest limit of the first `n` levels; none stands for no limit at all. */
  function Tightest(r: Reads, key: Key, n: nat): Option<nat> {
    if n == 0 then None
    else
      var rest, own := Tightest(r, key, n - 1), r.main(n - 1, key).parsed;
      if !own.Finite? then rest else if rest.None? then Some(own.value) else Some(Min(rest.value, own.value))
  }

  lemma {:induction false} TightestIsSmallest(r: Reads, key: Key, n: nat)
    ensures match Tightest(r, key, n)
      case None => forall level | 0 <= level < n :: !r.main(level, key).parsed.Finite?
      case Some(v) => Smallest(r, key, n, v)
  {
    if n > 0 { TightestIsSmallest(r, key, n - 1); }
  }

  /** A ceiling is missing exactly when the observations of some level do not agree on
    * a usable limit; otherwise it is the tightest one. */
  ghost predicate CeilingHolds(r: Reads, key: Key, m: Metric) {
    && (m == Unavailable <==> exists level | 0 <= level < r.levels :: !ConfirmedAt(r, key, level))
    && (m.NoFiniteVisibleLimit? ==> Tightest(r, key, r.levels) == None)
    && (m.Ceiling? ==> Tightest(r, key, r.levels) == Some(m.value))
    && !m.Quota?
  }

  lemma CeilingMeansTightest(r: Reads, key: Key, changed: set<Key>, m: Metric)
    requires key != GroupType && key != CpusetEffective && (key in changed <==> !Stable(r, key))
    requires IsCeiling(r, key, changed, m)
    ensures CeilingHolds(r, key, m)
  {
    TightestIsSmallest(r, key, r.levels);
    if !Stable(r, key) {
      var level :| InScope(r, level, key) && !Alike(r, level, key);
      assert !ConfirmedAt(r, key, level);
    }
  }

  /** The CPU quota is missing exactly when some level's limit or the CPU set was not
    * read alike and usable three times; otherwise it is the smallest ratio. */
  ghost predicate QuotaHolds(r: Reads, m: Metric)
    requires r.levels > 0
  {
    && (m == Unavailable <==>
          || (exists level | 0 <= level < r.levels :: !ConfirmedAt(r, CpuMax, level))
          || !CpusetConfirmed(r))
    && (m.NoFiniteVisibleLimit? ==> forall level | 0 <= level < r.levels :: !r.main(level, CpuMax).parsed.Ratio?)
    && (m.Quota? ==>
          LowestTerms(m.numerator, m.denominator) && SmallestRatio(r, r.levels, m.numerator, m.denominator))
    && !m.Ceiling?
  }

  lemma QuotaMeansSmallest(r: Reads, changed: set<Key>, m: Metric)
    requires r.levels > 0 && IsQuota(r, changed, m)
    requires (CpuMax in changed <==> !Stable(r, CpuMax))
    requires (CpusetEffective in changed <==> !Stable(r, CpusetEffective))
    ensures QuotaHolds(r, m)
  {
    if !Stable(r, CpuMax) {
      var level :| InScope(r, level, CpuMax) && !Alike(r, level, CpuMax);
      assert !ConfirmedAt(r, CpuMax, level);
    }
    if !Stable(r, CpusetEffective) {
      var level :| InScope(r, level, CpusetEffective) && !Alike(r, level, CpusetEffective);
      assert level == r.levels - 1;
    }
  }

  // ---------- the collector ----------

  class Collector {
    const observed: Reads
    var bound: bool
    var selected: bool
    var memory: Metric
    var swap: Metric
    var cpu: Metric

    constructor (observed: Reads)
      ensures this.observed == observed && !bound && !selected
      ensures memory == Unavailable && swap == Unavailable && cpu == Unavailable
    {
      this.observed, bound, selected := observed, false, false;
      memory, swap, cpu := Unavailable, Unavailable, Unavailable;
    }

    /** Metrics are derived only for a bound, selected hierarchy of supported types. */
    method DeriveMetrics(changed: set<Key>)
      requires observed.levels > 0 && RatiosPositive(observed)
      modifies `memory, `swap, `cpu
      ensures if bound && selected && GroupType !in changed && TypesSupported(observed) then
                && IsCeiling(observed, MemoryMax, changed, memory) && IsCeiling(observed, SwapMax, changed, swap)
                && IsQuota(observed, changed, cpu)
              else memory == old(memory) && swap == old(swap) && cpu == old(cpu)
    {
      if !bound || !selected || GroupType in changed {
        return;
      }
      for level := 0 to observed.levels
        invariant forall l | 0 <= l < level ::
          Supported(observed.initial(l, GroupType)) && Supported(observed.closing(l, GroupType))
        invariant memory == old(memory) && swap == old(swap) && cpu == old(cpu)
      {
        if !Supported(observed.initial(level, GroupType)) || !Supported(observed.closing(level, GroupType)) {
          return;
        }
      }
      memory := LimitMetric(observed, MemoryMax, changed);
      swap := LimitMetric(observed, SwapMax, changed);
      cpu := QuotaMetric(observed, changed);
    }

    /** The whole run: `fenceKept` says that the closing fence found the same context.
      * Metrics are set only for a kept context whose types are supported and did not
      * change, and then mean what all three observations say. */
    method Run(fenceKept: bool)
      requires observed.levels > 0 && RatiosPositive(observed)
      modifies this
      ensures if fenceKept && Stable(observed, GroupType) && TypesSupported(observed) then
                && CeilingHolds(observed, MemoryMax, memory) && CeilingHolds(observed, SwapMax, swap)
                && QuotaHolds(observed, cpu)
              else memory == old(memory) && swap == old(swap) && cpu == old(cpu)
    {
      bound, selected := true, true;
      for level := 0 to observed.levels
        invariant bound && memory == old(memory) && swap == old(swap) && cpu == old(cpu)
        invariant selected <==>
          forall l | 0 <= l < level :: observed.initial(l, GroupType).parseState != UnsupportedLayout
      {
        if observed.initial(level, GroupType).parseState == UnsupportedLayout {
          selected := false;
        }
      }
      var changed := ChangedKeys(observed);
      bound := fenceKept;
      DeriveMetrics(changed);
      if fenceKept && Stable(observed, GroupType) && TypesSupported(observed) {
        CeilingMeansTightest(observed, MemoryMax, changed, memory);
        CeilingMeansTightest(observed, SwapMax, changed, swap);
        QuotaMeansSmallest(observed, changed, cpu);
      }
    }
  }
}
