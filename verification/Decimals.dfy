/** Decimal numerals as text. */
module Decimals {
  import opened Common

  predicate Digit(c: char) {
    '0' <= c <= '9'
  }

  predicate Digits(s: string) {
    forall i | 0 <= i < |s| :: Digit(s[i])
  }

  predicate Numeral(s: string) {
    s != [] && Digits(s)
  }

  function Pow10(n: nat): (p: nat)
    ensures p >= 1
  {
    if n == 0 then 1 else 10 * Pow10(n - 1)
  }

  function Number(s: string): nat
    requires Digits(s)
  {
    if s == [] then 0 else (s[0] as int - 48) * Pow10(|s| - 1) + Number(s[1..])
  }

  function Zeros(n: nat): (s: string)
    ensures |s| == n && Digits(s)
  {
    if n == 0 then [] else "0" + Zeros(n - 1)
  }

  lemma AtMostNine(d: nat, p: nat)
    requires d <= 9
    ensures d * p <= 9 * p
  {
  }

  lemma Spread(d: nat, p: nat, q: nat, r: nat)
    ensures d * (p * q) + r * q == (d * p + r) * q
  {
  }

  lemma {:induction false} NumberBound(s: string)
    requires Digits(s)
    ensures Number(s) < Pow10(|s|)
  {
    if s != [] {
      NumberBound(s[1..]);
      AtMostNine(s[0] as int - 48, Pow10(|s| - 1));
    }
  }

  lemma LeadingDigit(d: nat, e: nat, p: nat, x: nat, y: nat)
    requires d < e && x < p
    ensures d * p + x < e * p + y
  {
    assert (d + 1) * p <= e * p;
  }

  lemma {:induction false} PowSum(a: nat, b: nat)
    ensures Pow10(a + b) == Pow10(a) * Pow10(b)
  {
    if a > 0 { PowSum(a - 1, b); }
  }

  lemma {:induction false} ZerosNumber(n: nat)
    ensures Number(Zeros(n)) == 0
  {
    if n > 0 {
      assert Zeros(n)[1..] == Zeros(n - 1);
      ZerosNumber(n - 1);
    }
  }

  lemma {:induction false} NumberPadded(s: string, n: nat)
    requires Digits(s)
    ensures Digits(s + Zeros(n)) && Number(s + Zeros(n)) == Number(s) * Pow10(n)
  {
    var t := s + Zeros(n);
    if s == [] {
      assert t == Zeros(n);
      ZerosNumber(n);
    } else {
      assert t[1..] == s[1..] + Zeros(n);
      NumberPadded(s[1..], n);
      PowSum(|s| - 1, n);
      Spread(s[0] as int - 48, Pow10(|s| - 1), Pow10(n), Number(s[1..]));
    }
  }

  // ---------- leading zeros and bounded conversion ----------

  /** The numeral without leading zeros; possibly empty. */
  function Significant(s: string): (r: string)
    ensures |r| <= |s| && (r != [] ==> r[0] != '0')
  {
    if s != [] && s[0] == '0' then Significant(s[1..]) else s
  }

  lemma {:induction false} SignificantKeepsNumber(s: string)
    requires Digits(s)
    ensures Digits(Significant(s)) && Number(Significant(s)) == Number(s)
  {
    if s != [] && s[0] == '0' {
      SignificantKeepsNumber(s[1..]);
    }
  }

  lemma AtLeastOnce(d: nat, p: nat)
    requires d >= 1
    ensures d * p >= p
  {
  }

  lemma NumberAtLeast(s: string)
    requires Digits(s) && s != [] && s[0] != '0'
    ensures Number(s) >= Pow10(|s| - 1)
  {
    AtLeastOnce(s[0] as int - 48, Pow10(|s| - 1));
  }

  lemma {:induction false} Pow10Grows(a: nat, b: nat)
    requires a <= b
    ensures Pow10(a) <= Pow10(b)
    decreases b - a
  {
    if a < b { Pow10Grows(a, b - 1); }
  }

  const U64_MAX: nat := 18446744073709551615

  /** Convert a numeral, but only once its length shows that it is not huge. */
  function ParseU64(s: string): Option<nat>
    requires Digits(s)
  {
    SignificantKeepsNumber(s);
    var normalized := if Significant(s) == [] then "0" else Significant(s);
    if |normalized| > 20 then None
    else if Number(normalized) > U64_MAX then None
    else Some(Number(normalized))
  }

  lemma TwentyDigits()
    ensures Pow10(20) == 100000000000000000000
  {
    assert Pow10(5) == 100000;
    PowSum(5, 5);
    PowSum(10, 10);
  }

  /** The length test changes nothing: a numeral converts if and only if its value
    * fits in 64 bits. */
  lemma ParseU64Exactly(s: string)
    requires Digits(s)
    ensures ParseU64(s) == if Number(s) <= U64_MAX then Some(Number(s)) else None
  {
    var t := Significant(s);
    SignificantKeepsNumber(s);
    if |t| > 20 {
      NumberAtLeast(t);
      Pow10Grows(20, |t| - 1);
      TwentyDigits();
    } else if t == [] {
      assert "0"[1..] == "" && Number("0") == 0;
    }
  }
}
