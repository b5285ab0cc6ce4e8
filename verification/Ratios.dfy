/** Greatest common divisors and ratios in lowest terms. */
module Ratios {
  function Gcd(a: nat, b: nat): (g: nat)
    requires a > 0
    ensures g > 0
    decreases b
  {
    if b == 0 then a else Gcd(b, a % b)
  }

  function Times(k: nat, d: nat): nat {
    k * d
  }

  ghost predicate Divides(d: nat, n: nat) {
    exists k: nat :: Times(k, d) == n
  }

  lemma TimesGrows(m: int, n: int, d: nat)
    requires m <= n
    ensures m * d <= n * d
  {
  }

  lemma TimesTimes(i: nat, d: nat, g: nat)
    ensures Times(i, Times(d, g)) == Times(Times(i, d), g)
  {
  }

  lemma SmallMultiple(m: int, d: nat)
    requires 0 <= m * d < d
    ensures m == 0
  {
    if m < 0 { TimesGrows(m, -1, d); }
    if m > 0 { TimesGrows(1, m, d); }
  }

  lemma Quotient(k: nat, d: nat)
    requires d > 0
    ensures Times(k, d) / d == k
  {
    var n := k * d;
    assert (k - n / d) * d == n % d;
    SmallMultiple(k - n / d, d);
  }

  lemma DividesSum(d: nat, x: nat, y: nat, k: nat)
    requires Divides(d, x) && Divides(d, y)
    ensures Divides(d, x + k * y)
  {
    var q: nat :| Times(q, d) == x;
    var r: nat :| Times(r, d) == y;
    assert Times(q + k * r, d) == q * d + k * (r * d);
  }

  lemma DividesDifference(d: nat, x: nat, y: nat, k: nat)
    requires d > 0 && Divides(d, x) && Divides(d, y) && k * y <= x
    ensures Divides(d, x - k * y)
  {
    var q: nat :| Times(q, d) == x;
    var r: nat :| Times(r, d) == y;
    assert (q - k * r) * d == q * d - k * (r * d);
    if q - k * r < 0 { TimesGrows(q - k * r, -1, d); }
    assert Times(q - k * r, d) == x - k * y;
  }

  /** The result divides both numbers, and every common divisor divides it. */
  lemma {:induction false} GcdIsGreatest(a: nat, b: nat, d: nat)
    requires a > 0 && d > 0
    ensures Divides(Gcd(a, b), a) && Divides(Gcd(a, b), b)
    ensures Divides(d, a) && Divides(d, b) ==> Divides(d, Gcd(a, b))
    decreases b
  {
    if b == 0 {
      assert Times(1, a) == a && Times(0, a) == 0;
    } else {
      var g, k := Gcd(b, a % b), a / b;
      GcdIsGreatest(b, a % b, d);
      assert a == a % b + k * b;
      DividesSum(g, a % b, b, k);
      if Divides(d, a) && Divides(d, b) {
        DividesDifference(d, a, b, k);
      }
    }
  }

  /** No number above one divides both. */
  ghost predicate LowestTerms(p: nat, q: nat) {
    q > 0 && forall d: nat | Divides(d, p) && Divides(d, q) :: d <= 1
  }

  lemma DivisorAtMost(d: nat, n: nat)
    requires Divides(d, n) && n > 0
    ensures 0 < d <= n
  {
    var k: nat :| Times(k, d) == n;
    if k > 0 { TimesGrows(1, k, d); }
  }

  /** Dividing by the greatest common divisor leaves the value and lowest terms. */
  lemma ReducedIsLowest(p: nat, q: nat)
    requires p > 0 && q > 0
    ensures var g := Gcd(p, q); LowestTerms(p / g, q / g) && (p / g) * q == p * (q / g) && p / g > 0
  {
    var g := Gcd(p, q);
    GcdIsGreatest(p, q, 1);
    var a: nat :| Times(a, g) == p;
    var b: nat :| Times(b, g) == q;
    Quotient(a, g);
    Quotient(b, g);
    assert a * (b * g) == (a * g) * b;
    assert a > 0 && b > 0;
    forall d: nat | Divides(d, a) && Divides(d, b) ensures d <= 1 {
      CommonFactor(a, b, g, d);
    }
  }

  lemma CommonFactor(a: nat, b: nat, g: nat, d: nat)
    requires a > 0 && g > 0 && Divides(d, a) && Divides(d, b) && Gcd(Times(a, g), Times(b, g)) == g
    ensures d <= 1
  {
    var i: nat :| Times(i, d) == a;
    var j: nat :| Times(j, d) == b;
    DivisorAtMost(d, a);
    var e, p, q := Times(d, g), Times(a, g), Times(b, g);
    TimesGrows(1, d, g);
    TimesGrows(1, a, g);
    TimesTimes(i, d, g);
    TimesTimes(j, d, g);
    assert Times(i, e) == p && Times(j, e) == q;
    GcdIsGreatest(p, q, e);
    DivisorAtMost(e, g);
    if d > 1 { TimesGrows(2, d, g); }
  }
}
