/** String operations shared by the SQL generator and the log redactor. */
module TextOps {

  predicate IsSpace(c: char) {
    var n := c as int;
    || 9 <= n <= 13 || 28 <= n <= 32 || n == 0x85 || n == 0xa0 || n == 0x1680
    || 0x2000 <= n <= 0x200a || n == 0x2028 || n == 0x2029 || n == 0x202f || n == 0x205f || n == 0x3000
  }

  /** Order of strings by code point. */
  predicate Less(s: string, t: string) {
    t != [] && (s == [] || s[0] < t[0] || (s[0] == t[0] && Less(s[1..], t[1..])))
  }

  predicate StartsWith(s: string, prefix: string) {
    |prefix| <= |s| && s[..|prefix|] == prefix
  }

  /** Leftmost non-overlapping replacement of a non-empty pattern. */
  function Replace(s: string, old_: string, new_: string): string
    requires old_ != []
  {
    if s == [] then []
    else if StartsWith(s, old_) then new_ + Replace(s[|old_|..], old_, new_)
    else [s[0]] + Replace(s[1..], old_, new_)
  }

  /** `s` with every `c` doubled. */
  function Doubled(s: string, c: char): string {
    Replace(s, [c], [c, c])
  }

  /** `s` with every pair `cc`, taken from the left, reduced to one `c`. */
  function Undoubled(s: string, c: char): string {
    Replace(s, [c, c], [c])
  }

  lemma {:induction false} ReplaceShortens(s: string, old_: string, new_: string)
    requires old_ != [] && |new_| <= |old_|
    ensures |Replace(s, old_, new_)| <= |s|
  {
    if s != [] {
      if StartsWith(s, old_) {
        ReplaceShortens(s[|old_|..], old_, new_);
      } else {
        ReplaceShortens(s[1..], old_, new_);
      }
    }
  }

  lemma DoubledCons(s: string, c: char)
    requires s != []
    ensures Doubled(s, c) == (if s[0] == c then [c, c] else [s[0]]) + Doubled(s[1..], c)
  {
    assert s[..1] == [s[0]];
  }

  /** Undoubling inverts doubling. */
  lemma {:induction false} UndoubledDoubled(s: string, c: char)
    ensures Undoubled(Doubled(s, c), c) == s
  {
    if s != [] {
      var d, rest := Doubled(s, c), Doubled(s[1..], c);
      DoubledCons(s, c);
      UndoubledDoubled(s[1..], c);
      if s[0] == c {
        assert d[..2] == [c, c] && d[2..] == rest;
      } else {
        assert d[0] == s[0] && d[1..] == rest;
      }
      assert s == [s[0]] + s[1..];
    }
  }

  /** Length of the text up to and including the first line feed. */
  function LineLength(s: string): (n: nat)
    ensures n <= |s| && (s != [] ==> n >= 1)
    ensures forall i | 0 <= i < n - 1 :: s[i] != '\n'
    ensures n < |s| ==> s[n - 1] == '\n'
  {
    if s == [] then 0
    else if s[0] == '\n' then 1
    else 1 + LineLength(s[1..])
  }
}
