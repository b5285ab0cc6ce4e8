/** Small types and set facts shared by the other modules. */
module Common {

  datatype Option<+T> = None | Some(value: T)

  datatype Result<+T, +E> = Ok(value: T) | Err(error: E)

  newtype byte = n: int | 0 <= n < 256

  function Min(a: int, b: int): int {
    if a <= b then a else b
  }

  function Max(a: int, b: int): int {
    if a <= b then b else a
  }

  lemma {:induction false} SubsetSize<T>(a: set<T>, b: set<T>)
    requires a <= b
    ensures |a| <= |b|
    ensures |a| == |b| ==> a == b
    decreases a
  {
    if x :| x in a {
      SubsetSize(a - {x}, b - {x});
      assert a == (a - {x}) + {x} && b == (b - {x}) + {x};
    } else {
      assert |b| == 0 ==> b == {};
    }
  }

  /** The member of a one-element set. */
  function Only<T(==)>(s: set<T>): (x: T)
    requires |s| == 1
    ensures s == {x}
  {
    assert exists x :: x in s by {
      if s == {} { assert false; }
    }
    assert forall x, y | x in s && y in s :: x == y by {
      forall x, y | x in s && y in s ensures x == y {
        if x != y { SubsetSize({x, y}, s); }
      }
    }
    var x :| x in s;
    assert s == {x};
    x
  }

  /** The greatest member of a non-empty set of numbers. */
  function Greatest(s: set<nat>): (m: nat)
    requires s != {}
    ensures m in s && forall x | x in s :: x <= m
  {
    GreatestExists(s);
    var m :| m in s && forall x | x in s :: x <= m;
    m
  }

  lemma {:induction false} GreatestExists(s: set<nat>)
    requires s != {}
    ensures exists m :: m in s && forall x | x in s :: x <= m
    decreases s
  {
    var x :| x in s;
    if s != {x} {
      GreatestExists(s - {x});
      var m :| m in s - {x} && forall y | y in s - {x} :: y <= m;
      var top := Max(x, m);
      assert s == (s - {x}) + {x};
      assert top in s && forall y | y in s :: y <= top;
    } else {
      assert x in s && forall y | y in s :: y <= x;
    }
  }

  /** The least member of a non-empty set of numbers. */
  function Least(s: set<nat>): (m: nat)
    requires s != {}
    ensures m in s && forall x | x in s :: m <= x
  {
    LeastExists(s);
    var m :| m in s && forall x | x in s :: m <= x;
    m
  }

  lemma {:induction false} LeastExists(s: set<nat>)
    requires s != {}
    ensures exists m :: m in s && forall x | x in s :: m <= x
    decreases s
  {
    var x :| x in s;
    if s != {x} {
      LeastExists(s - {x});
      var m :| m in s - {x} && forall y | y in s - {x} :: m <= y;
      var low := Min(x, m);
      assert s == (s - {x}) + {x};
      assert low in s && forall y | y in s :: low <= y;
    } else {
      assert x in s && forall y | y in s :: x <= y;
    }
  }

  /** The `n` least members of `s`, or all of `s` when it has fewer. */
  function Lowest(s: set<nat>, n: nat): (r: set<nat>)
    ensures r <= s && |r| == Min(n, |s|)
    ensures forall x, y | x in r && y in s - r :: x < y
    decreases n
  {
    if n == 0 || s == {} then {}
    else
      var m := Least(s);
      var rest := Lowest(s - {m}, n - 1);
      assert s - ({m} + rest) == (s - {m}) - rest;
      {m} + rest
  }
}
