/** Server timestamps compared as text. */
module UtcKeys {
  import opened Common
  import opened Decimals
  import opened TextOps

  // ---------- the timestamp format ----------

  /** YYYY-MM-DDTHH:MM:SS with up to seven fractional digits and a final Z. */
  predicate Shaped(v: string) {
    && |v| >= 20
    && Digits(v[0..4]) && v[4] == '-' && Digits(v[5..7]) && v[7] == '-' && Digits(v[8..10]) && v[10] == 'T'
    && Digits(v[11..13]) && v[13] == ':' && Digits(v[14..16]) && v[16] == ':' && Digits(v[17..19])
    && v[|v| - 1] == 'Z'
    && (|v| == 20 || (22 <= |v| <= 28 && v[19] == '.' && Digits(v[20..|v| - 1])))
  }

  function Fraction(v: string): string
    requires Shaped(v)
    ensures |Fraction(v)| <= 7 && Digits(Fraction(v))
  {
    if |v| == 20 then [] else v[20..|v| - 1]
  }

  datatype Time = Time(year: nat, month: nat, day: nat, hour: nat, minute: nat, second: nat, fraction: nat)

  /** The instant a timestamp denotes; the fraction counts units of 100 ns. */
  function TimeOf(v: string): Time
    requires Shaped(v)
  {
    Time(Number(v[0..4]), Number(v[5..7]), Number(v[8..10]),
         Number(v[11..13]), Number(v[14..16]), Number(v[17..19]),
         Number(Fraction(v)) * Pow10(7 - |Fraction(v)|))
  }

  function DaysIn(year: nat, month: nat): nat {
    if month == 2 then if year % 4 == 0 && (year % 100 != 0 || year % 400 == 0) then 29 else 28
    else if month == 4 || month == 6 || month == 9 || month == 11 then 30
    else 31
  }

  predicate OnCalendar(t: Time) {
    && 1 <= t.year && 1 <= t.month <= 12 && 1 <= t.day <= DaysIn(t.year, t.month)
    && t.hour < 24 && t.minute < 60 && t.second < 60
  }

  predicate Earlier(a: Time, b: Time) {
    || a.year < b.year
    || (a.year == b.year && (a.month < b.month
    || (a.month == b.month && (a.day < b.day
    || (a.day == b.day && (a.hour < b.hour
    || (a.hour == b.hour && (a.minute < b.minute
    || (a.minute == b.minute && (a.second < b.second
    || (a.second == b.second && a.fraction < b.fraction)))))))))))
  }

  /** The comparison key of a timestamp; none for text that is not one. */
  function UtcKey(v: string): Option<string> {
    if Shaped(v) && OnCalendar(TimeOf(v)) then Some(KeyText(v)) else None
  }

  function KeyText(v: string): string
    requires Shaped(v)
  {
    v[..19] + "." + Padded(v) + "Z"
  }

  function Padded(v: string): (s: string)
    requires Shaped(v)
    ensures |s| == 7 && Digits(s)
  {
    Fraction(v) + Zeros(7 - |Fraction(v)|)
  }

  // ---------- digits ----------

  /** Equally long digit strings are ordered like the numbers they write. */
  lemma {:induction false} DigitsOrder(a: string, b: string, x: string, y: string)
    requires |a| == |b| && Digits(a) && Digits(b)
    ensures Less(a + x, b + y) <==> Number(a) < Number(b) || (Number(a) == Number(b) && Less(x, y))
  {
    if a == [] {
      assert a + x == x && b + y == y;
    } else {
      assert (a + x)[1..] == a[1..] + x && (b + y)[1..] == b[1..] + y;
      DigitsOrder(a[1..], b[1..], x, y);
      var p := Pow10(|a| - 1);
      NumberBound(a[1..]);
      NumberBound(b[1..]);
      if a[0] < b[0] {
        LeadingDigit(a[0] as int - 48, b[0] as int - 48, p, Number(a[1..]), Number(b[1..]));
      } else if b[0] < a[0] {
        LeadingDigit(b[0] as int - 48, a[0] as int - 48, p, Number(b[1..]), Number(a[1..]));
      }
    }
  }

  // ---------- the order of keys ----------

  lemma FieldOrder(a: string, b: string, c: char, x: string, y: string)
    requires |a| == |b| && Digits(a) && Digits(b)
    ensures Less(a + ([c] + x), b + ([c] + y)) <==> Number(a) < Number(b) || (Number(a) == Number(b) && Less(x, y))
  {
    DigitsOrder(a, b, [c] + x, [c] + y);
    assert ([c] + x)[1..] == x && ([c] + y)[1..] == y;
  }

  /** The seven digit fields of a timestamp, the fraction padded. */
  datatype Fields = Fields(
    year: string, month: string, day: string, hour: string, minute: string, second: string, fraction: string)
  {
    predicate Ok() {
      && |year| == 4 && |month| == 2 && |day| == 2 && |hour| == 2 && |minute| == 2 && |second| == 2 && |fraction| == 7
      && Digits(year) && Digits(month) && Digits(day) && Digits(hour) && Digits(minute) && Digits(second)
      && Digits(fraction)
    }

    function Clock(): string {
      hour + ([':'] + (minute + ([':'] + (second + (['.'] + (fraction + ['Z']))))))
    }

    function Text(): string {
      year + (['-'] + (month + (['-'] + (day + (['T'] + Clock())))))
    }

    function Numbers(): Time
      requires Ok()
    {
      Time(Number(year), Number(month), Number(day), Number(hour), Number(minute), Number(second), Number(fraction))
    }
  }

  lemma ClockOrder(a: Fields, b: Fields)
    requires a.Ok() && b.Ok()
    ensures Less(a.Clock(), b.Clock()) <==>
      Earlier(a.Numbers().(year := 0, month := 0, day := 0), b.Numbers().(year := 0, month := 0, day := 0))
  {
    var z: string := ['Z'];
    FieldOrder(a.hour, b.hour, ':', a.minute + ([':'] + (a.second + (['.'] + (a.fraction + z)))),
               b.minute + ([':'] + (b.second + (['.'] + (b.fraction + z)))));
    FieldOrder(a.minute, b.minute, ':', a.second + (['.'] + (a.fraction + z)), b.second + (['.'] + (b.fraction + z)));
    FieldOrder(a.second, b.second, '.', a.fraction + z, b.fraction + z);
    DigitsOrder(a.fraction, b.fraction, z, z);
    assert z[1..] == [];
  }

  lemma FieldsOrder(a: Fields, b: Fields)
    requires a.Ok() && b.Ok()
    ensures Less(a.Text(), b.Text()) <==> Earlier(a.Numbers(), b.Numbers())
  {
    var x, y := a.Clock(), b.Clock();
    ClockOrder(a, b);
    FieldOrder(a.year, b.year, '-',
               a.month + (['-'] + (a.day + (['T'] + x))), b.month + (['-'] + (b.day + (['T'] + y))));
    FieldOrder(a.month, b.month, '-', a.day + (['T'] + x), b.day + (['T'] + y));
    FieldOrder(a.day, b.day, 'T', x, y);
  }

  function FieldsOf(v: string): (f: Fields)
    requires Shaped(v)
    ensures f.Ok()
  {
    Fields(v[0..4], v[5..7], v[8..10], v[11..13], v[14..16], v[17..19], Padded(v))
  }

  lemma SplitField(s: string, i: nat, j: nat, c: char)
    requires i <= j < |s| && s[j] == c
    ensures s[i..] == s[i..j] + ([c] + s[j + 1..])
  {
  }

  lemma KeyAsFields(k: string, f: Fields)
    requires |k| == 28 && k[4] == '-' && k[7] == '-' && k[10] == 'T' && k[13] == ':' && k[16] == ':' && k[19] == '.'
    requires k[27] == 'Z'
    requires f == Fields(k[0..4], k[5..7], k[8..10], k[11..13], k[14..16], k[17..19], k[20..27])
    ensures f.Text() == k
  {
    SplitField(k, 0, 4, '-');
    SplitField(k, 5, 7, '-');
    SplitField(k, 8, 10, 'T');
    SplitField(k, 11, 13, ':');
    SplitField(k, 14, 16, ':');
    SplitField(k, 17, 19, '.');
    SplitField(k, 20, 27, 'Z');
    assert k[28..] == [] && k[0..] == k && ['Z'] + [] == ['Z'];
  }

  lemma KeyFields(v: string)
    requires Shaped(v)
    ensures var k := KeyText(v);
      && |k| == 28 && k[4] == '-' && k[7] == '-' && k[10] == 'T' && k[13] == ':' && k[16] == ':' && k[19] == '.'
      && k[27] == 'Z'
      && FieldsOf(v) == Fields(k[0..4], k[5..7], k[8..10], k[11..13], k[14..16], k[17..19], k[20..27])
  {
    var head, k := v[..19], KeyText(v);
    assert k[..19] == head && k[20..27] == Padded(v);
    SameSlice(k, v, 0, 4);
    SameSlice(k, v, 5, 7);
    SameSlice(k, v, 8, 10);
    SameSlice(k, v, 11, 13);
    SameSlice(k, v, 14, 16);
    SameSlice(k, v, 17, 19);
  }

  lemma SameSlice(k: string, v: string, i: nat, j: nat)
    requires |k| >= 19 && |v| >= 19 && k[..19] == v[..19] && i <= j <= 19
    ensures k[i..j] == v[i..j]
  {
    forall x | i <= x < j ensures k[x] == v[x] {
      assert k[..19][x] == v[..19][x];
    }
  }

  lemma FieldsDescribe(v: string)
    requires Shaped(v)
    ensures FieldsOf(v).Text() == KeyText(v) && FieldsOf(v).Numbers() == TimeOf(v)
  {
    KeyFields(v);
    KeyAsFields(KeyText(v), FieldsOf(v));
    NumberPadded(Fraction(v), 7 - |Fraction(v)|);
  }

  /** Keys are ordered as text exactly like the instants they stand for. */
  lemma KeyOrderIsChronological(v: string, w: string)
    requires Shaped(v) && Shaped(w)
    ensures Less(KeyText(v), KeyText(w)) <==> Earlier(TimeOf(v), TimeOf(w))
  {
    FieldsDescribe(v);
    FieldsDescribe(w);
    FieldsOrder(FieldsOf(v), FieldsOf(w));
  }

  /** A key is itself a timestamp of the same instant and its own key. */
  lemma KeyIsStable(v: string)
    requires UtcKey(v).Some?
    ensures var k := UtcKey(v).value; Shaped(k) && TimeOf(k) == TimeOf(v) && UtcKey(k) == Some(k)
  {
    var k := KeyText(v);
    assert forall i | 0 <= i < 19 :: k[i] == v[i];
    assert k[0..4] == v[0..4] && k[5..7] == v[5..7] && k[8..10] == v[8..10];
    assert k[11..13] == v[11..13] && k[14..16] == v[14..16] && k[17..19] == v[17..19];
    assert k[20..27] == Padded(v);
    assert Fraction(k) == Padded(v);
    NumberPadded(Fraction(v), 7 - |Fraction(v)|);
    assert KeyText(k) == k;
  }
}
