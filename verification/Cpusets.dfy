/** Normalizing a list of CPU numbers and ranges. */
module Cpusets {
  import opened Common
  import opened Decimals
  import opened Utf8

  const MAX_INPUT_BYTES: nat := 65536
  const U31_MAX: nat := 2147483647

  datatype Interval = Interval(start: nat, end: nat)

  datatype Reason = InvalidToken | InvalidFormat | OutOfRange | InvalidRange

  datatype Cpuset =
    | InputTooLarge | Invalid(reason: Reason) | EmptyObservation
    | Valid(intervals: seq<Interval>, cpuCount: nat)

  // ---------- reading the text ----------

  predicate OuterSpace(c: char) {
    c == ' ' || c == '\t' || c == '\r' || c == '\n'
  }

  function TrimLeft(s: string): string {
    if s != [] && OuterSpace(s[0]) then TrimLeft(s[1..]) else s
  }

  function TrimRight(s: string): string {
    if s != [] && OuterSpace(s[|s| - 1]) then TrimRight(s[..|s| - 1]) else s
  }

  /** Position of the first `c`, or the length. */
  function IndexOf(s: string, c: char): (i: nat)
    ensures i <= |s| && c !in s[..i] && (i < |s| ==> s[i] == c)
  {
    if s == [] || s[0] == c then 0 else 1 + IndexOf(s[1..], c)
  }

  /** One number, or two numbers joined by a hyphen. */
  function ParseItem(item: string): Result<Interval, Reason> {
    var h := IndexOf(item, '-');
    var first, second := item[..h], if h < |item| then item[h + 1..] else item;
    if first == [] || second == [] || !Digits(first) || !Digits(second) then Err(InvalidFormat)
    else
      match ParseU64(first)
      case None => Err(OutOfRange)
      case Some(a) =>
        match ParseU64(second)
        case None => Err(OutOfRange)
        case Some(b) =>
          if a > U31_MAX || b > U31_MAX then Err(OutOfRange)
          else if a > b then Err(InvalidRange)
          else Ok(Interval(a, b))
  }

  /** The items between commas; the first bad one decides the error. */
  function ParseItems(text: string): (r: Result<seq<Interval>, Reason>)
    ensures r.Ok? ==> r.value != [] && forall i | 0 <= i < |r.value| :: r.value[i].start <= r.value[i].end
    decreases |text|
  {
    var c := IndexOf(text, ',');
    match ParseItem(text[..c])
    case Err(e) => Err(e)
    case Ok(first) =>
      if c == |text| then Ok([first])
      else
        match ParseItems(text[c + 1..])
        case Err(e) => Err(e)
        case Ok(rest) => Ok([first] + rest)
  }

  // ---------- what a text lists ----------

  /** One item as it is written: a number, or two of them joined by a hyphen. */
  datatype Item = Single(number: string) | Pair(low: string, high: string)

  function First(item: Item): string {
    if item.Single? then item.number else item.low
  }

  function Last(item: Item): string {
    if item.Single? then item.number else item.high
  }

  function Print(item: Item): string {
    if item.Single? then item.number else item.low + "-" + item.high
  }

  /** The piece of text is that item, written with digits. */
  predicate Writes(piece: string, item: Item) {
    Numeral(First(item)) && Numeral(Last(item)) && Print(item) == piece
  }

  /** `x` is the number of the item, or lies between its two numbers. */
  predicate Spans(item: Item, x: nat) {
    Numeral(First(item)) && Numeral(Last(item)) && Number(First(item)) <= x <= Number(Last(item))
  }

  predicate Within(item: Item) {
    Numeral(First(item)) && Numeral(Last(item)) && Number(First(item)) <= Number(Last(item)) <= U31_MAX
  }

  ghost predicate WellWritten(piece: string) {
    exists item :: Writes(piece, item)
  }

  ghost predicate Covers(piece: string, x: nat) {
    exists item :: Writes(piece, item) && Spans(item, x)
  }

  ghost predicate Accepted(piece: string) {
    exists item :: Writes(piece, item) && Within(item)
  }

  /** What is wrong with a piece of text. */
  ghost predicate Faulty(piece: string, e: Reason) {
    match e
    case InvalidToken => false
    case InvalidFormat => !WellWritten(piece)
    case OutOfRange => exists item :: Writes(piece, item) && Max(Number(First(item)), Number(Last(item))) > U31_MAX
    case InvalidRange => exists item :: Writes(piece, item) && Number(Last(item)) < Number(First(item)) <= U31_MAX
  }

  function Commas(pieces: seq<string>): string
    requires pieces != []
  {
    if |pieces| == 1 then pieces[0] else pieces[0] + "," + Commas(pieces[1..])
  }

  predicate Blank(s: string) {
    forall i | 0 <= i < |s| :: OuterSpace(s[i])
  }

  predicate Trimmed(s: string) {
    s != [] && !OuterSpace(s[0]) && !OuterSpace(s[|s| - 1])
  }

  /** The pieces between the commas, once outer white space is off. */
  ghost predicate Lists(raw: string, pieces: seq<string>) {
    && pieces != [] && (forall k | 0 <= k < |pieces| :: ',' !in pieces[k]) && Trimmed(Commas(pieces))
    && exists left, right :: Blank(left) && Blank(right) && raw == left + Commas(pieces) + right
  }

  /** The item a well-written piece writes. */
  function ItemOf(piece: string): Item {
    var h := IndexOf(piece, '-');
    if h < |piece| then Pair(piece[..h], piece[h + 1..]) else Single(piece)
  }

  lemma {:induction false} IndexInFront(a: string, b: string, c: char)
    requires c !in a && (b == [] || b[0] == c)
    ensures IndexOf(a + b, c) == |a|
  {
    if a == [] {
      assert a + b == b;
    } else {
      assert a[0] in a && (a + b)[1..] == a[1..] + b;
      IndexInFront(a[1..], b, c);
    }
  }

  lemma OnlyItem(piece: string, item: Item)
    requires Writes(piece, item)
    ensures item == ItemOf(piece)
  {
    assert forall i | 0 <= i < |First(item)| :: Digit(First(item)[i]);
    if item.Single? {
      IndexInFront(piece, [], '-');
      assert piece + [] == piece;
    } else {
      assert piece == item.low + ("-" + item.high);
      IndexInFront(item.low, "-" + item.high, '-');
    }
  }

  lemma WrittenAsItem(piece: string)
    ensures WellWritten(piece) == (Numeral(First(ItemOf(piece))) && Numeral(Last(ItemOf(piece))))
    ensures WellWritten(piece) ==> Writes(piece, ItemOf(piece))
  {
    var h, item := IndexOf(piece, '-'), ItemOf(piece);
    if h < |piece| { assert piece == piece[..h] + "-" + piece[h + 1..]; }
    if WellWritten(piece) {
      var it :| Writes(piece, it);
      OnlyItem(piece, it);
    } else if Numeral(First(item)) && Numeral(Last(item)) {
      assert Writes(piece, item);
    }
  }

  lemma ParsedAsItem(piece: string, item: Item)
    requires item == ItemOf(piece)
    ensures !Numeral(First(item)) || !Numeral(Last(item)) ==> ParseItem(piece) == Err(InvalidFormat)
    ensures Numeral(First(item)) && Numeral(Last(item)) ==>
      var a, b := Number(First(item)), Number(Last(item));
      ParseItem(piece) == if Max(a, b) > U31_MAX then Err(OutOfRange)
                          else if a > b then Err(InvalidRange) else Ok(Interval(a, b))
  {
    var h := IndexOf(piece, '-');
    assert h == |piece| ==> piece[..h] == piece;
    if Numeral(First(item)) && Numeral(Last(item)) {
      ParseU64Exactly(First(item));
      ParseU64Exactly(Last(item));
    }
  }

  /** One piece is read as the item it writes, and refused for its own fault. */
  lemma PieceRead(piece: string)
    ensures ParseItem(piece).Ok? == Accepted(piece)
    ensures forall e :: (ParseItem(piece) == Err(e)) == Faulty(piece, e)
    ensures ParseItem(piece).Ok? ==>
      forall x: nat :: Covers(piece, x) == (ParseItem(piece).value.start <= x <= ParseItem(piece).value.end)
  {
    var item := ItemOf(piece);
    WrittenAsItem(piece);
    ParsedAsItem(piece, item);
    forall it | Writes(piece, it) ensures it == item { OnlyItem(piece, it); }
    forall e ensures (ParseItem(piece) == Err(e)) == Faulty(piece, e) {
      if Writes(piece, item) && Faulty(piece, e) {
        assert e != InvalidToken && e != InvalidFormat;
      }
    }
  }

  /** The first faulty piece is the `k`-th, for reason `e`. */
  ghost predicate FirstFault(pieces: seq<string>, k: nat, e: Reason) {
    k < |pieces| && (forall j | 0 <= j < k :: Accepted(pieces[j])) && Faulty(pieces[k], e)
  }

  // ---------- sets of numbers ----------

  predicate In(x: nat, ivs: seq<Interval>) {
    exists i | 0 <= i < |ivs| :: ivs[i].start <= x <= ivs[i].end
  }

  /** Sorted, disjoint and not even adjacent. */
  predicate Canonical(ivs: seq<Interval>) {
    && (forall i | 0 <= i < |ivs| :: ivs[i].start <= ivs[i].end)
    && (forall i, j | 0 <= i < j < |ivs| :: ivs[i].end + 1 < ivs[j].start)
  }

  predicate Before(a: Interval, b: Interval) {
    a.start < b.start || (a.start == b.start && a.end <= b.end)
  }

  predicate Sorted(ivs: seq<Interval>) {
    forall i, j | 0 <= i < j < |ivs| :: Before(ivs[i], ivs[j])
  }

  function Insert(v: Interval, ivs: seq<Interval>): seq<Interval> {
    if ivs == [] || Before(v, ivs[0]) then [v] + ivs else [ivs[0]] + Insert(v, ivs[1..])
  }

  function Sort(ivs: seq<Interval>): seq<Interval> {
    if ivs == [] then [] else Insert(ivs[0], Sort(ivs[1..]))
  }

  lemma {:induction false} InsertKeeps(v: Interval, ivs: seq<Interval>)
    ensures multiset(Insert(v, ivs)) == multiset{v} + multiset(ivs)
  {
    if ivs != [] && !Before(v, ivs[0]) {
      InsertKeeps(v, ivs[1..]);
      assert ivs == [ivs[0]] + ivs[1..];
    }
  }

  lemma SortedAfter(first: Interval, rest: seq<Interval>)
    requires Sorted(rest) && forall j | 0 <= j < |rest| :: Before(first, rest[j])
    ensures Sorted([first] + rest)
  {
  }

  lemma {:induction false} InsertSorts(v: Interval, ivs: seq<Interval>)
    requires Sorted(ivs)
    ensures Sorted(Insert(v, ivs))
  {
    if ivs != [] && !Before(v, ivs[0]) {
      var rest := Insert(v, ivs[1..]);
      InsertSorts(v, ivs[1..]);
      InsertKeeps(v, ivs[1..]);
      forall j | 0 <= j < |rest| ensures Before(ivs[0], rest[j]) {
        assert rest[j] in multiset(rest);
        assert rest[j] == v || rest[j] in ivs[1..];
      }
      SortedAfter(ivs[0], rest);
    }
  }

  /** Sorting yields the sorted arrangement of the same intervals. */
  lemma {:induction false} SortSorts(ivs: seq<Interval>)
    ensures Sorted(Sort(ivs)) && multiset(Sort(ivs)) == multiset(ivs)
  {
    if ivs != [] {
      SortSorts(ivs[1..]);
      InsertSorts(ivs[0], Sort(ivs[1..]));
      InsertKeeps(ivs[0], Sort(ivs[1..]));
      assert ivs == [ivs[0]] + ivs[1..];
    }
  }

  lemma SameMembers(a: seq<Interval>, b: seq<Interval>)
    requires multiset(a) == multiset(b)
    ensures forall x: nat :: In(x, a) <==> In(x, b)
    ensures (forall i | 0 <= i < |a| :: a[i].start <= a[i].end) ==> forall i | 0 <= i < |b| :: b[i].start <= b[i].end
  {
    forall x: nat ensures In(x, a) <==> In(x, b) {
      if i :| 0 <= i < |a| && a[i].start <= x <= a[i].end { assert a[i] in multiset(b); }
      if i :| 0 <= i < |b| && b[i].start <= x <= b[i].end { assert b[i] in multiset(a); }
    }
    forall i | 0 <= i < |b| ensures b[i] in a { assert b[i] in multiset(a); }
  }

  // ---------- merging ----------

  lemma InAppend(x: nat, a: seq<Interval>, v: Interval)
    ensures In(x, a + [v]) <==> In(x, a) || v.start <= x <= v.end
  {
    var b := a + [v];
    if i :| 0 <= i < |a| && a[i].start <= x <= a[i].end { assert b[i] == a[i]; }
    if i :| 0 <= i < |b| && b[i].start <= x <= b[i].end {
      assert i < |a| ==> b[i] == a[i];
    }
    assert b[|a|] == v;
  }

  ghost predicate SameSet(a: seq<Interval>, b: seq<Interval>) {
    forall x: nat :: In(x, a) <==> In(x, b)
  }

  /** Extending the last interval by one that starts no later than right behind it. */
  lemma MergeStep(front: seq<Interval>, last: Interval, v: Interval)
    requires Canonical(front + [last]) && last.start <= v.start <= last.end + 1 && v.start <= v.end
    ensures var merged := front + [Interval(last.start, Max(last.end, v.end))];
      Canonical(merged) && forall x: nat :: In(x, merged) <==> In(x, front + [last]) || v.start <= x <= v.end
  {
    var m := Interval(last.start, Max(last.end, v.end));
    assert (front + [last])[|front|] == last;
    forall x: nat ensures In(x, front + [m]) <==> In(x, front + [last]) || v.start <= x <= v.end {
      InAppend(x, front, m);
      InAppend(x, front, last);
    }
    forall i | 0 <= i < |front| ensures front[i].end + 1 < last.start && front[i].start <= front[i].end {
      assert (front + [last])[i] == front[i];
    }
    forall i, j | 0 <= i < j < |front| ensures front[i].end + 1 < front[j].start {
      assert (front + [last])[i] == front[i] && (front + [last])[j] == front[j];
    }
  }

  /** Add one interval that does not start before the last one. */
  function Extend(merged: seq<Interval>, v: Interval): seq<Interval> {
    if merged != [] && v.start <= merged[|merged| - 1].end + 1 then
      var last := merged[|merged| - 1];
      merged[..|merged| - 1] + [Interval(last.start, Max(last.end, v.end))]
    else merged + [v]
  }

  lemma ExtendKeeps(merged: seq<Interval>, prefix: seq<Interval>, v: Interval)
    requires Canonical(merged) && SameSet(merged, prefix) && v.start <= v.end
    requires merged != [] ==> merged[|merged| - 1].start <= v.start
    ensures Canonical(Extend(merged, v)) && SameSet(Extend(merged, v), prefix + [v])
  {
    if merged != [] && v.start <= merged[|merged| - 1].end + 1 {
      var front, last := merged[..|merged| - 1], merged[|merged| - 1];
      assert merged == front + [last];
      MergeStep(front, last, v);
      SameSetAppend(Extend(merged, v), merged, prefix, v);
    } else {
      AppendSame(merged, prefix, v);
      CanonicalAppend(merged, v);
    }
  }

  /** One pass over the sorted intervals. */
  method Merge(sorted: seq<Interval>) returns (merged: seq<Interval>)
    requires Sorted(sorted) && forall i | 0 <= i < |sorted| :: sorted[i].start <= sorted[i].end
    ensures Canonical(merged) && SameSet(merged, sorted)
    ensures sorted != [] ==> merged != []
  {
    merged := [];
    ghost var prefix: seq<Interval> := [];
    for i := 0 to |sorted|
      invariant prefix == sorted[..i]
      invariant Canonical(merged) && SameSet(merged, prefix)
      invariant i == 0 <==> merged == []
      invariant i > 0 ==> merged[|merged| - 1].start <= sorted[i - 1].start
    {
      var v := sorted[i];
      assert i > 0 ==> Before(sorted[i - 1], v);
      ExtendKeeps(merged, prefix, v);
      ghost var extended := Extend(merged, v);
      if merged != [] && v.start <= merged[|merged| - 1].end + 1 {
        var last := merged[|merged| - 1];
        merged := merged[|merged| - 1 := Interval(last.start, Max(last.end, v.end))];
      } else {
        merged := merged + [v];
      }
      assert merged == extended;
      prefix := prefix + [v];
    }
    assert prefix == sorted;
  }

  lemma SameSetAppend(merged: seq<Interval>, was: seq<Interval>, prefix: seq<Interval>, v: Interval)
    requires SameSet(was, prefix)
    requires forall x: nat :: In(x, merged) <==> In(x, was) || v.start <= x <= v.end
    ensures SameSet(merged, prefix + [v])
  {
    forall x: nat ensures In(x, merged) <==> In(x, prefix + [v]) {
      InAppend(x, prefix, v);
    }
  }

  lemma AppendSame(a: seq<Interval>, b: seq<Interval>, v: Interval)
    requires SameSet(a, b)
    ensures SameSet(a + [v], b + [v])
  {
    forall x: nat ensures In(x, a + [v]) <==> In(x, b + [v]) {
      InAppend(x, a, v);
      InAppend(x, b, v);
    }
  }

  lemma CanonicalAppend(a: seq<Interval>, v: Interval)
    requires Canonical(a) && v.start <= v.end && (a != [] ==> a[|a| - 1].end + 1 < v.start)
    ensures Canonical(a + [v])
  {
    forall i | 0 <= i < |a| ensures a[i].end + 1 < v.start {
      if i < |a| - 1 { assert a[i].end + 1 < a[|a| - 1].start; }
    }
  }

  // ---------- canonical lists ----------

  lemma CanonicalTail(a: seq<Interval>)
    requires Canonical(a) && a != []
    ensures Canonical(a[1..]) && forall x: nat :: In(x, a[1..]) <==> In(x, a) && x > a[0].end
  {
    forall x: nat ensures In(x, a[1..]) <==> In(x, a) && x > a[0].end {
      if i :| 0 <= i < |a[1..]| && a[1..][i].start <= x <= a[1..][i].end { assert a[i + 1] == a[1..][i]; }
      if In(x, a) && x > a[0].end {
        var i :| 0 <= i < |a| && a[i].start <= x <= a[i].end;
        assert a[1..][i - 1] == a[i];
      }
    }
  }

  lemma FirstStart(a: seq<Interval>, b: seq<Interval>)
    requires Canonical(a) && Canonical(b) && a != [] && b != [] && SameSet(a, b)
    ensures a[0].start >= b[0].start
  {
    assert In(a[0].start, a) && In(a[0].start, b);
    var i :| 0 <= i < |b| && b[i].start <= a[0].start <= b[i].end;
    assert i > 0 ==> b[0].end < b[i].start;
  }

  lemma GapBehindFirst(b: seq<Interval>)
    requires Canonical(b) && b != []
    ensures !In(b[0].end + 1, b)
  {
  }

  lemma FirstEnd(a: seq<Interval>, b: seq<Interval>)
    requires Canonical(a) && Canonical(b) && a != [] && b != [] && SameSet(a, b) && a[0].start == b[0].start
    ensures a[0].end <= b[0].end
  {
    GapBehindFirst(b);
    var gap: nat := b[0].end + 1;
    assert b[0].start <= b[0].end;
    assert In(gap, a) <==> In(gap, b);
  }

  lemma SameTails(a: seq<Interval>, b: seq<Interval>)
    requires Canonical(a) && Canonical(b) && SameSet(a, b) && a != [] && b != [] && a[0] == b[0]
    ensures Canonical(a[1..]) && Canonical(b[1..]) && SameSet(a[1..], b[1..])
  {
    CanonicalTail(a);
    CanonicalTail(b);
  }

  /** Two canonical lists of the same set are the same list. */
  lemma {:induction false} CanonicalIsUnique(a: seq<Interval>, b: seq<Interval>)
    requires Canonical(a) && Canonical(b) && SameSet(a, b)
    ensures a == b
    decreases |a|
  {
    if a == [] {
      if b != [] { assert In(b[0].start, b); }
    } else {
      assert In(a[0].start, a);
      FirstStart(a, b);
      FirstStart(b, a);
      FirstEnd(a, b);
      FirstEnd(b, a);
      SameTails(a, b);
      CanonicalIsUnique(a[1..], b[1..]);
      assert a == [a[0]] + a[1..] && b == [b[0]] + b[1..];
    }
  }

  function Count(ivs: seq<Interval>): int {
    if ivs == [] then 0 else ivs[0].end - ivs[0].start + 1 + Count(ivs[1..])
  }

  function Range(i: nat, j: nat): (s: set<nat>)
    ensures forall x: nat :: x in s <==> i <= x <= j
    decreases j - i
  {
    if i > j then {} else {i} + Range(i + 1, j)
  }

  lemma {:induction false} RangeSize(i: nat, j: nat)
    requires i <= j + 1
    ensures |Range(i, j)| == j - i + 1
    decreases j + 1 - i
  {
    if i <= j {
      RangeSize(i + 1, j);
    }
  }

  /** The numbers an interval list stands for. */
  function Members(ivs: seq<Interval>): (s: set<nat>)
    ensures forall x: nat :: x in s <==> In(x, ivs)
  {
    if ivs == [] then {}
    else
      var rest := ivs[1..];
      assert forall x: nat :: In(x, ivs) <==> (ivs[0].start <= x <= ivs[0].end || In(x, rest)) by {
        InFirst(ivs);
      }
      Range(ivs[0].start, ivs[0].end) + Members(rest)
  }

  lemma InFirst(ivs: seq<Interval>)
    requires ivs != []
    ensures forall x: nat :: In(x, ivs) <==> (ivs[0].start <= x <= ivs[0].end || In(x, ivs[1..]))
  {
    forall x: nat ensures In(x, ivs) <==> (ivs[0].start <= x <= ivs[0].end || In(x, ivs[1..])) {
      if i :| 0 <= i < |ivs[1..]| && ivs[1..][i].start <= x <= ivs[1..][i].end { assert ivs[i + 1] == ivs[1..][i]; }
      if i :| 1 <= i < |ivs| && ivs[i].start <= x <= ivs[i].end { assert ivs[1..][i - 1] == ivs[i]; }
    }
  }

  /** The sum of the lengths is the number of members. */
  lemma {:induction false} CountIsCardinality(ivs: seq<Interval>)
    requires Canonical(ivs)
    ensures Count(ivs) == |Members(ivs)|
  {
    if ivs != [] {
      var first, rest := Range(ivs[0].start, ivs[0].end), Members(ivs[1..]);
      CanonicalTail(ivs);
      CountIsCardinality(ivs[1..]);
      RangeSize(ivs[0].start, ivs[0].end);
      assert first !! rest;
    }
  }

  // ---------- the whole text ----------

  method ParseCpuset(raw: string) returns (r: Cpuset)
    ensures r == InputTooLarge <==> |Encode(raw)| > MAX_INPUT_BYTES
    ensures r != InputTooLarge ==> Reads(raw, r)
  {
    if |Encode(raw)| > MAX_INPUT_BYTES {
      return InputTooLarge;
    }
    if '\0' in raw {
      return Invalid(InvalidToken);
    }
    var text := TrimRight(TrimLeft(raw));
    TrimmedText(raw);
    if text == [] {
      return EmptyObservation;
    }
    var items := ParseItems(text);
    if items.Err? {
      FaultRead(raw, items.error);
      return Invalid(items.error);
    }
    SortSorts(items.value);
    SameMembers(items.value, Sort(items.value));
    var merged := Merge(Sort(items.value));
    var count := 0;
    ghost var rest := merged;
    for i := 0 to |merged|
      invariant rest == merged[i..] && count + Count(rest) == Count(merged)
    {
      count := count + (merged[i].end - merged[i].start + 1);
      rest := rest[1..];
    }
    CountIsCardinality(merged);
    r := Valid(merged, count);
    NormalFormRead(raw, items.value, merged);
  }

  lemma SameSetSameMembers(a: seq<Interval>, b: seq<Interval>)
    requires SameSet(a, b)
    ensures Members(a) == Members(b)
  {
    assert forall x: nat :: x in Members(a) <==> x in Members(b);
  }

  /** Some piece covers CPU `x`. */
  ghost predicate Covered(pieces: seq<string>, x: nat) {
    exists k | 0 <= k < |pieces| :: Covers(pieces[k], x)
  }

  ghost predicate SameNumbers(intervals: seq<Interval>, pieces: seq<string>) {
    forall x: nat :: In(x, intervals) == Covered(pieces, x)
  }

  /** What a result says about the pieces of the text. */
  ghost predicate ReadsPieces(pieces: seq<string>, r: Cpuset) {
    match r
    case Valid(intervals, cpuCount) =>
      && (forall k | 0 <= k < |pieces| :: Accepted(pieces[k]))
      && Canonical(intervals) && SameNumbers(intervals, pieces) && cpuCount == |Members(intervals)|
    case Invalid(e) => exists k: nat :: FirstFault(pieces, k, e)
    case InputTooLarge => false
    case EmptyObservation => false
  }

  /** What a result says about the text it was read from. */
  ghost predicate Reads(raw: string, r: Cpuset) {
    if '\0' in raw then r == Invalid(InvalidToken)
    else if Blank(raw) then r == EmptyObservation
    else (exists pieces :: Lists(raw, pieces)) && forall pieces | Lists(raw, pieces) :: ReadsPieces(pieces, r)
  }

  // ---------- the text between the white space ----------

  lemma {:induction false} TrimLeftOuter(s: string)
    ensures exists left :: Blank(left) && s == left + TrimLeft(s)
    ensures TrimLeft(s) != [] ==> !OuterSpace(TrimLeft(s)[0])
  {
    if s != [] && OuterSpace(s[0]) {
      TrimLeftOuter(s[1..]);
      var left :| Blank(left) && s[1..] == left + TrimLeft(s[1..]);
      assert Blank([s[0]] + left) && s == ([s[0]] + left) + TrimLeft(s);
    } else {
      assert Blank([]) && s == [] + TrimLeft(s);
    }
  }

  lemma {:induction false} TrimRightOuter(s: string)
    ensures exists right :: Blank(right) && s == TrimRight(s) + right
    ensures TrimRight(s) != [] ==> !OuterSpace(TrimRight(s)[|TrimRight(s)| - 1]) && TrimRight(s)[0] == s[0]
  {
    if s != [] && OuterSpace(s[|s| - 1]) {
      var front, c := s[..|s| - 1], s[|s| - 1];
      TrimRightOuter(front);
      var right :| Blank(right) && front == TrimRight(front) + right;
      assert Blank(right + [c]) && s == TrimRight(s) + (right + [c]);
    } else {
      assert Blank([]) && s == TrimRight(s) + [];
    }
  }

  lemma {:induction false} TrimLeftOf(left: string, s: string)
    requires Blank(left) && (s == [] || !OuterSpace(s[0]))
    ensures TrimLeft(left + s) == s
  {
    if left == [] {
      assert left + s == s;
    } else {
      assert (left + s)[0] == left[0] && (left + s)[1..] == left[1..] + s;
      TrimLeftOf(left[1..], s);
    }
  }

  lemma {:induction false} TrimRightOf(s: string, right: string)
    requires Blank(right) && (s == [] || !OuterSpace(s[|s| - 1]))
    ensures TrimRight(s + right) == s
  {
    if right == [] {
      assert s + right == s;
    } else {
      var n := |right| - 1;
      assert (s + right)[|s| + n] == right[n] && (s + right)[..|s| + n] == s + right[..n];
      TrimRightOf(s, right[..n]);
    }
  }

  lemma TrimOf(left: string, s: string, right: string)
    requires Blank(left) && Blank(right) && Trimmed(s)
    ensures TrimRight(TrimLeft(left + s + right)) == s
  {
    assert left + s + right == left + (s + right) && (s + right)[0] == s[0];
    TrimLeftOf(left, s + right);
    TrimRightOf(s, right);
  }

  /** The text is what the trimmed text leaves of it, between white space. */
  ghost predicate TrimsTo(raw: string, text: string) {
    && (text == [] || Trimmed(text))
    && exists left, right :: Blank(left) && Blank(right) && raw == left + text + right
  }

  lemma TrimmedParts(raw: string, front: string, text: string)
    requires front == TrimLeft(raw) && text == TrimRight(front)
    ensures TrimsTo(raw, text)
  {
    TrimLeftOuter(raw);
    TrimRightOuter(front);
    var left :| Blank(left) && raw == left + front;
    var right :| Blank(right) && front == text + right;
    assert raw == left + text + right;
  }

  lemma BlankSandwich(left: string, text: string, right: string)
    requires Blank(left) && Blank(right) && (text == [] || Trimmed(text))
    ensures Blank(left + text + right) == (text == [])
  {
    var raw := left + text + right;
    if text == [] {
      assert raw == left + right;
    } else {
      assert raw[|left|] == text[0];
    }
  }

  lemma TrimmedText(raw: string)
    ensures var text := TrimRight(TrimLeft(raw));
      TrimsTo(raw, text) && (text == []) == Blank(raw) && (text != [] ==> Trimmed(text))
  {
    var text := TrimRight(TrimLeft(raw));
    TrimmedParts(raw, TrimLeft(raw), text);
    var left, right :| Blank(left) && Blank(right) && raw == left + text + right;
    BlankSandwich(left, text, right);
  }

  /** Every text is pieces joined by commas. */
  lemma {:induction false} CutAtCommas(text: string) returns (pieces: seq<string>)
    ensures pieces != [] && (forall k | 0 <= k < |pieces| :: ',' !in pieces[k]) && Commas(pieces) == text
    decreases |text|
  {
    var c := IndexOf(text, ',');
    if c == |text| {
      pieces := [text];
      assert text[..c] == text;
    } else {
      var rest := CutAtCommas(text[c + 1..]);
      pieces := [text[..c]] + rest;
      assert pieces[1..] == rest && text == text[..c] + "," + text[c + 1..];
    }
  }

  lemma SomeListing(raw: string)
    requires !Blank(raw)
    ensures exists pieces :: Lists(raw, pieces)
  {
    TrimmedText(raw);
    var pieces := CutAtCommas(TrimRight(TrimLeft(raw)));
    assert Lists(raw, pieces);
  }

  lemma ListedText(raw: string, pieces: seq<string>)
    requires Lists(raw, pieces)
    ensures TrimRight(TrimLeft(raw)) == Commas(pieces)
  {
    var left, right :| Blank(left) && Blank(right) && raw == left + Commas(pieces) + right;
    TrimOf(left, Commas(pieces), right);
  }

  // ---------- reading the pieces ----------

  /** The intervals are those of the pieces, one each. */
  ghost predicate PieceByPiece(pieces: seq<string>, items: seq<Interval>) {
    && |items| == |pieces|
    && forall k, x: nat | 0 <= k < |pieces| ::
         Covers(pieces[k], x) == (items[k].start <= x <= items[k].end)
  }

  lemma FaultBehind(pieces: seq<string>, k: nat, e: Reason)
    requires pieces != [] && Accepted(pieces[0]) && FirstFault(pieces[1..], k, e)
    ensures FirstFault(pieces, k + 1, e)
  {
    forall j | 0 <= j < k + 1 ensures Accepted(pieces[j]) {
      if j > 0 { assert pieces[1..][j - 1] == pieces[j]; }
    }
  }

  lemma PieceInFront(pieces: seq<string>, first: Interval, rest: seq<Interval>)
    requires pieces != [] && PieceByPiece(pieces[1..], rest)
    requires forall x: nat :: Covers(pieces[0], x) == (first.start <= x <= first.end)
    ensures PieceByPiece(pieces, [first] + rest)
  {
    var items := [first] + rest;
    forall k, x: nat | 0 <= k < |pieces|
      ensures Covers(pieces[k], x) == (items[k].start <= x <= items[k].end)
    {
      if k > 0 { assert pieces[1..][k - 1] == pieces[k] && rest[k - 1] == items[k]; }
    }
  }

  lemma CommasFront(pieces: seq<string>)
    requires |pieces| > 1 && ',' !in pieces[0]
    ensures var text := Commas(pieces);
      IndexOf(text, ',') == |pieces[0]| < |text| && text[..|pieces[0]|] == pieces[0]
      && text[|pieces[0]| + 1..] == Commas(pieces[1..])
  {
    var rest := "," + Commas(pieces[1..]);
    assert Commas(pieces) == pieces[0] + rest;
    IndexInFront(pieces[0], rest, ',');
  }

  ghost predicate ParsedPieces(pieces: seq<string>, r: Result<seq<Interval>, Reason>) {
    match r
    case Ok(items) => (forall k | 0 <= k < |pieces| :: Accepted(pieces[k])) && PieceByPiece(pieces, items)
    case Err(e) => exists k: nat :: FirstFault(pieces, k, e)
  }

  lemma FirstPieceRead(pieces: seq<string>, first: Result<Interval, Reason>, rest: Result<seq<Interval>, Reason>)
    requires pieces != [] && first == ParseItem(pieces[0]) && ParsedPieces(pieces[1..], rest)
    ensures first.Err? ==> ParsedPieces(pieces, Err(first.error))
    ensures first.Ok? && rest.Err? ==> ParsedPieces(pieces, rest)
    ensures first.Ok? && rest.Ok? ==> ParsedPieces(pieces, Ok([first.value] + rest.value))
  {
    PieceRead(pieces[0]);
    if first.Err? {
      assert FirstFault(pieces, 0, first.error);
    } else if rest.Err? {
      var k: nat :| FirstFault(pieces[1..], k, rest.error);
      FaultBehind(pieces, k, rest.error);
    } else {
      PieceInFront(pieces, first.value, rest.value);
      assert forall k | 1 <= k < |pieces| :: pieces[k] == pieces[1..][k - 1];
    }
  }

  /** The items are read if and only if every piece is accepted; otherwise the first
    * faulty piece names the error. */
  lemma {:induction false} PiecesRead(pieces: seq<string>)
    requires pieces != [] && forall k | 0 <= k < |pieces| :: ',' !in pieces[k]
    ensures ParsedPieces(pieces, ParseItems(Commas(pieces)))
    decreases |pieces|
  {
    var text := Commas(pieces);
    PieceRead(pieces[0]);
    if |pieces| == 1 {
      IndexInFront(text, [], ',');
      assert text + [] == text && text[..|text|] == text;
      assert ParseItem(text).Err? ==> FirstFault(pieces, 0, ParseItem(text).error);
    } else {
      CommasFront(pieces);
      var later := pieces[1..];
      PiecesRead(later);
      assert ParsedPieces(later, ParseItems(Commas(later)));
      FirstPieceRead(pieces, ParseItem(pieces[0]), ParseItems(Commas(later)));
    }
  }

  lemma FaultRead(raw: string, e: Reason)
    requires '\0' !in raw && !Blank(raw) && ParseItems(TrimRight(TrimLeft(raw))) == Err(e)
    ensures Reads(raw, Invalid(e))
  {
    SomeListing(raw);
    forall pieces | Lists(raw, pieces) ensures ReadsPieces(pieces, Invalid(e)) {
      ListedText(raw, pieces);
      PiecesRead(pieces);
    }
  }

  lemma PiecesSameNumbers(pieces: seq<string>, items: seq<Interval>)
    requires PieceByPiece(pieces, items)
    ensures SameNumbers(items, pieces)
  {
    forall x: nat ensures In(x, items) == Covered(pieces, x) {
      if i :| 0 <= i < |items| && items[i].start <= x <= items[i].end { assert Covers(pieces[i], x); }
      if k :| 0 <= k < |pieces| && Covers(pieces[k], x) { assert items[k].start <= x <= items[k].end; }
    }
  }

  lemma NormalFormRead(raw: string, items: seq<Interval>, merged: seq<Interval>)
    requires '\0' !in raw && !Blank(raw) && ParseItems(TrimRight(TrimLeft(raw))) == Ok(items)
    requires Canonical(merged) && SameSet(merged, items)
    ensures Reads(raw, Valid(merged, |Members(merged)|))
  {
    SomeListing(raw);
    forall pieces | Lists(raw, pieces) ensures ReadsPieces(pieces, Valid(merged, |Members(merged)|)) {
      ListedText(raw, pieces);
      PiecesRead(pieces);
      PiecesSameNumbers(pieces, items);
    }
  }

  // ---------- what a result tells ----------

  lemma FaultsExclude(piece: string, e: Reason, f: Reason)
    requires Faulty(piece, e)
    ensures !Accepted(piece) && (Faulty(piece, f) ==> e == f)
  {
    PieceRead(piece);
  }

  lemma OneFirstFault(pieces: seq<string>, k: nat, e: Reason, l: nat, f: Reason)
    requires FirstFault(pieces, k, e) && FirstFault(pieces, l, f)
    ensures k == l && e == f
  {
    FaultsExclude(pieces[k], e, f);
    FaultsExclude(pieces[l], f, e);
  }

  lemma NoFaultWhenAccepted(pieces: seq<string>, k: nat, e: Reason)
    requires FirstFault(pieces, k, e)
    ensures !Accepted(pieces[k])
  {
    FaultsExclude(pieces[k], e, e);
  }

  lemma PiecesOneResult(pieces: seq<string>, a: Cpuset, b: Cpuset)
    requires ReadsPieces(pieces, a) && ReadsPieces(pieces, b)
    ensures a == b
  {
    if a.Valid? && b.Valid? {
      CanonicalIsUnique(a.intervals, b.intervals);
    } else {
      if a.Invalid? {
        var k: nat :| FirstFault(pieces, k, a.reason);
        NoFaultWhenAccepted(pieces, k, a.reason);
        if b.Invalid? {
          var l: nat :| FirstFault(pieces, l, b.reason);
          OneFirstFault(pieces, k, a.reason, l, b.reason);
        }
      } else {
        var l: nat :| FirstFault(pieces, l, b.reason);
        NoFaultWhenAccepted(pieces, l, b.reason);
      }
    }
  }

  /** The text alone decides the result. */
  lemma OneResult(raw: string, a: Cpuset, b: Cpuset)
    requires Reads(raw, a) && Reads(raw, b)
    ensures a == b
  {
    if '\0' !in raw && !Blank(raw) {
      var pieces :| Lists(raw, pieces);
      PiecesOneResult(pieces, a, b);
    }
  }

  /** CPU `x` is one of the numbers the text writes. */
  ghost predicate Denotes(raw: string, x: nat) {
    exists pieces :: Lists(raw, pieces) && Covered(pieces, x)
  }

  ghost predicate SameCpus(a: string, b: string) {
    forall x: nat :: Denotes(a, x) == Denotes(b, x)
  }

  /** The intervals of a result hold exactly the numbers the text writes. */
  lemma ValidDenotes(raw: string, r: Cpuset)
    requires Reads(raw, r) && r.Valid?
    ensures Canonical(r.intervals) && r.cpuCount == |Members(r.intervals)|
    ensures forall x: nat :: In(x, r.intervals) == Denotes(raw, x)
  {
    var pieces :| Lists(raw, pieces);
    assert ReadsPieces(pieces, r);
    forall x: nat ensures In(x, r.intervals) == Denotes(raw, x) {
      if Denotes(raw, x) {
        var other :| Lists(raw, other) && Covered(other, x);
        assert ReadsPieces(other, r);
      }
      assert SameNumbers(r.intervals, pieces);
    }
  }

  /** Two valid texts have the same result if and only if they denote the same CPUs,
    * however each writes them. */
  lemma SameSetSameResult(a: string, b: string, ra: Cpuset, rb: Cpuset)
    requires Reads(a, ra) && Reads(b, rb) && ra.Valid? && rb.Valid?
    ensures ra == rb <==> SameCpus(a, b)
  {
    ValidDenotes(a, ra);
    ValidDenotes(b, rb);
    if SameCpus(a, b) {
      CanonicalIsUnique(ra.intervals, rb.intervals);
    }
  }

  /** The pieces write the items. */
  predicate WritesAll(pieces: seq<string>, items: seq<Item>) {
    items != [] && |pieces| == |items| && forall k | 0 <= k < |items| :: Writes(pieces[k], items[k])
  }

  ghost predicate SomeSpans(items: seq<Item>, x: nat) {
    exists k | 0 <= k < |items| :: Spans(items[k], x)
  }

  lemma PrintedCovered(pieces: seq<string>, items: seq<Item>, x: nat)
    requires WritesAll(pieces, items)
    ensures Covered(pieces, x) == SomeSpans(items, x)
  {
    forall k | 0 <= k < |items| ensures Covers(pieces[k], x) == Spans(items[k], x) {
      PrintedCovers(pieces[k], items[k], x);
    }
  }

  lemma PrintedAccepted(pieces: seq<string>, items: seq<Item>)
    requires WritesAll(pieces, items) && forall k | 0 <= k < |items| :: Within(items[k])
    ensures forall k | 0 <= k < |pieces| :: Accepted(pieces[k])
  {
    forall k | 0 <= k < |pieces| ensures Accepted(pieces[k]) {
      assert Writes(pieces[k], items[k]) && Within(items[k]);
    }
  }

  /** Items within the limits, printed with commas and any outer white space, are
    * read as the set of the numbers they name. */
  lemma PrintedItemsRead(left: string, items: seq<Item>, pieces: seq<string>, right: string, r: Cpuset)
    requires WritesAll(pieces, items) && Blank(left) && Blank(right)
    requires forall k | 0 <= k < |items| :: Within(items[k])
    requires Reads(left + Commas(pieces) + right, r)
    ensures r.Valid? && forall x: nat :: In(x, r.intervals) == SomeSpans(items, x)
  {
    PrintedListing(left, items, pieces, right);
    assert ReadsPieces(pieces, r);
    PrintedAccepted(pieces, items);
    AcceptedHasNoFault(pieces, r);
    forall x: nat ensures In(x, r.intervals) == SomeSpans(items, x) {
      PrintedCovered(pieces, items, x);
    }
  }

  lemma AcceptedHasNoFault(pieces: seq<string>, r: Cpuset)
    requires ReadsPieces(pieces, r) && forall k | 0 <= k < |pieces| :: Accepted(pieces[k])
    ensures r.Valid?
  {
    if r.Invalid? {
      var k: nat :| FirstFault(pieces, k, r.reason);
      NoFaultWhenAccepted(pieces, k, r.reason);
    }
  }

  lemma PrintedCovers(piece: string, item: Item, x: nat)
    requires Writes(piece, item)
    ensures Covers(piece, x) == Spans(item, x)
  {
    forall it | Writes(piece, it) ensures it == item {
      OnlyItem(piece, it);
      OnlyItem(piece, item);
    }
  }

  lemma ItemCharacters(piece: string, item: Item)
    requires Writes(piece, item)
    ensures piece != [] && forall i | 0 <= i < |piece| :: Digit(piece[i]) || piece[i] == '-'
  {
    if item.Pair? {
      forall i | 0 <= i < |piece| ensures Digit(piece[i]) || piece[i] == '-' {
        var n := |item.low|;
        assert i < n ==> piece[i] == item.low[i];
        assert i > n ==> piece[i] == item.high[i - n - 1];
      }
    }
  }

  lemma {:induction false} CommasCharacters(pieces: seq<string>)
    requires pieces != [] && forall k | 0 <= k < |pieces| ::
      pieces[k] != [] && forall i | 0 <= i < |pieces[k]| :: Digit(pieces[k][i]) || pieces[k][i] == '-'
    ensures var text := Commas(pieces); Trimmed(text) && '\0' !in text
    decreases |pieces|
  {
    if |pieces| > 1 {
      CommasCharacters(pieces[1..]);
    }
  }

  lemma PrintedListing(left: string, items: seq<Item>, pieces: seq<string>, right: string)
    requires WritesAll(pieces, items) && Blank(left) && Blank(right)
    ensures var raw := left + Commas(pieces) + right; Lists(raw, pieces) && '\0' !in raw && !Blank(raw)
  {
    var raw := left + Commas(pieces) + right;
    forall k | 0 <= k < |pieces| ensures ',' !in pieces[k]
      && pieces[k] != [] && forall i | 0 <= i < |pieces[k]| :: Digit(pieces[k][i]) || pieces[k][i] == '-'
    {
      ItemCharacters(pieces[k], items[k]);
    }
    CommasCharacters(pieces);
    assert raw[|left|] == Commas(pieces)[0];
  }
}
