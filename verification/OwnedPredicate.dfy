/** The syntactic check that a seed statement may only touch framework rows. */
module OwnedPredicate {
  import Decimals

  import opened Common
  import opened TextOps
  import opened Scanning
  import opened Lexer
  import opened Quoting

  type Tokens = seq<Lexeme>

  datatype BuildError = UnclosedParenthesis

  function UpperAll(s: string): (r: string)
    ensures |r| == |s|
  {
    if s == [] then [] else [Upper(s[0])] + UpperAll(s[1..])
  }

  /** The comparison form of a token: keywords are compared in upper case. */
  function Keyword(t: Lexeme): string {
    if t.kind == PlainToken then UpperAll(t.value) else t.value
  }

  predicate Opens(t: Lexeme) { t.value == "(" }

  predicate Closes(t: Lexeme) { t.value == ")" }

  predicate IsAnd(t: Lexeme) { Keyword(t) == "AND" }

  predicate IsOr(t: Lexeme) { Keyword(t) == "OR" }

  // ---------- the check ----------

  /** Where the parenthesis that makes the depth zero closes. */
  function Match(ts: Tokens, depth: int): (r: Option<nat>)
    ensures r.Some? ==> r.value < |ts| && Closes(ts[r.value])
  {
    if ts == [] then None
    else if Opens(ts[0]) then More(1, Match(ts[1..], depth + 1))
    else if Closes(ts[0]) then if depth == 1 then Some(0) else More(1, Match(ts[1..], depth - 1))
    else More(1, Match(ts[1..], depth))
  }

  /** Remove every pair of parentheses that encloses the whole part. */
  function Unwrap(part: Tokens): (r: Result<Tokens, BuildError>)
    ensures r.Ok? ==> |r.value| <= |part|
  {
    if part == [] || !Opens(part[0]) then Ok(part)
    else
      match Match(part, 0)
      case None => Err(UnclosedParenthesis)
      case Some(m) => if m == |part| - 1 then Unwrap(part[1..m]) else Ok(part)
  }

  function Push(t: Lexeme, r: Option<seq<Tokens>>): Option<seq<Tokens>> {
    match r
    case Some(ps) => if ps == [] then Some([[t]]) else Some([[t] + ps[0]] + ps[1..])
    case None => None
  }

  /** The parts between the AND tokens outside parentheses; none if there is an
    * OR outside parentheses. */
  function Cut(ts: Tokens, depth: int): (r: Option<seq<Tokens>>)
    ensures r.Some? ==> r.value != []
  {
    if ts == [] then Some([[]])
    else if Opens(ts[0]) then Push(ts[0], Cut(ts[1..], depth + 1))
    else if Closes(ts[0]) then Push(ts[0], Cut(ts[1..], depth - 1))
    else if depth == 0 && IsOr(ts[0]) then None
    else if depth == 0 && IsAnd(ts[0]) then
      match Cut(ts[1..], 0)
      case Some(ps) => Some([[]] + ps)
      case None => None
    else Push(ts[0], Cut(ts[1..], depth))
  }

  predicate FlagIsOne(ts: Tokens) {
    |ts| == 3 && Ident(ts[0]) == "IsFrameworkDefault" && ts[1].value == "=" && ts[2].value == "1"
  }

  /** `IsFrameworkDefault = 1`, possibly qualified by the target's alias. */
  predicate OwnedForm(ts: Tokens, alias: Option<string>) {
    if |ts| == 5 && ts[1].value == "." then alias == Some(Ident(ts[0])) && FlagIsOne(ts[2..])
    else FlagIsOne(ts)
  }

  function AnyOwned(parts: seq<Tokens>, alias: Option<string>): Result<bool, BuildError> {
    if parts == [] then Ok(false)
    else
      match Unwrap(parts[0])
      case Err(e) => Err(e)
      case Ok(part) => if OwnedForm(part, alias) then Ok(true) else AnyOwned(parts[1..], alias)
  }

  function Owns(ts: Tokens, alias: Option<string>): Result<bool, BuildError> {
    match Unwrap(ts)
    case Err(e) => Err(e)
    case Ok(inner) =>
      match Cut(inner, 0)
      case None => Ok(false)
      case Some(parts) => AnyOwned(parts, alias)
  }

  // ---------- search conditions ----------

  /** A search condition.  An atom is one comparison; BETWEEN is separate because
    * its AND is not a connective, and so is the comparison of a CASE expression,
    * CASE WHEN guard THEN hit ELSE miss END = value, because its guard is a
    * condition of its own. */
  datatype Pred =
    | Atom(ts: Tokens)
    | Between(low: Tokens, high: Tokens)
    | Case(guard: Pred, hit: Tokens, miss: Tokens, value: Tokens)
    | Paren(inner: Pred)
    | Not(op: Pred)
    | And(left: Pred, right: Pred)
    | Or(left: Pred, right: Pred)

  predicate Connective(t: Lexeme) { IsAnd(t) || IsOr(t) }

  /** Reading `ts` at depth `d` ends at depth zero and never falls below it. */
  predicate Balanced(ts: Tokens, d: nat) {
    if ts == [] then d == 0
    else if Opens(ts[0]) then Balanced(ts[1..], d + 1)
    else if Closes(ts[0]) then d > 0 && Balanced(ts[1..], d - 1)
    else Balanced(ts[1..], d)
  }

  /** Balanced, and AND and OR only occur inside parentheses. */
  predicate Simple(ts: Tokens, d: nat) {
    if ts == [] then d == 0
    else if Opens(ts[0]) then Simple(ts[1..], d + 1)
    else if Closes(ts[0]) then d > 0 && Simple(ts[1..], d - 1)
    else (d == 0 ==> !Connective(ts[0])) && Simple(ts[1..], d)
  }

  predicate Wrapped(ts: Tokens) {
    ts != [] && Opens(ts[0]) && Match(ts, 0) == Some(|ts| - 1)
  }

  /** A leading point is a decimal point, not a column qualifier. */
  predicate NoBareQualifier(ts: Tokens) {
    |ts| >= 2 && ts[0].value == "." ==> Ident(ts[1]) != "IsFrameworkDefault"
  }

  predicate AtomOk(ts: Tokens) {
    ts != [] && Simple(ts, 0) && !Wrapped(ts) && NoBareQualifier(ts)
  }

  /** The two sides of a BETWEEN's AND: neither reads as the flag comparison. */
  predicate BoundsOk(low: Tokens, high: Tokens) {
    && low != [] && high != [] && Simple(low, 0) && Simple(high, 0)
    && !IsOwnedPart(low) && !IsOwnedPart(high) && NoBareQualifier(low)
  }

  predicate IsOwnedPart(ts: Tokens) {
    var r := Unwrap(ts);
    r.Err? || FlagIsOne(r.value) || (|r.value| == 5 && r.value[1].value == "." && FlagIsOne(r.value[2..]))
  }

  /** NOT binds tighter than AND, AND tighter than OR; a CASE has AND and OR only
    * inside parentheses. */
  predicate WellFormed(e: Pred) {
    match e
    case Atom(ts) => AtomOk(ts)
    case Between(low, high) => BoundsOk(low, high)
    case Case(_, _, _, _) => Simple(Show(e), 0)
    case Paren(p) => WellFormed(p)
    case Not(p) => WellFormed(p) && !p.And? && !p.Or?
    case And(l, r) => WellFormed(l) && WellFormed(r) && !l.Or? && !r.Or?
    case Or(l, r) => WellFormed(l) && WellFormed(r)
  }

  const OPEN := Lexeme("(", PlainToken)
  const CLOSE := Lexeme(")", PlainToken)
  const NOT := Lexeme("NOT", PlainToken)
  const AND := Lexeme("AND", PlainToken)
  const OR := Lexeme("OR", PlainToken)
  const CASE := Lexeme("CASE", PlainToken)
  const WHEN := Lexeme("WHEN", PlainToken)
  const THEN := Lexeme("THEN", PlainToken)
  const ELSE := Lexeme("ELSE", PlainToken)
  const END := Lexeme("END", PlainToken)
  const EQUAL := Lexeme("=", PlainToken)

  function Show(e: Pred): (ts: Tokens) {
    match e
    case Atom(ts) => ts
    case Between(low, high) => low + [AND] + high
    case Case(guard, hit, miss, value) => [CASE, WHEN] + Show(guard) + CaseTail(hit, miss, value)
    case Paren(p) => [OPEN] + Show(p) + [CLOSE]
    case Not(p) => [NOT] + Show(p)
    case And(l, r) => Show(l) + [AND] + Show(r)
    case Or(l, r) => Show(l) + [OR] + Show(r)
  }

  function CaseTail(hit: Tokens, miss: Tokens, value: Tokens): (ts: Tokens)
    ensures |ts| >= 4
  {
    [THEN] + hit + [ELSE] + miss + [END, EQUAL] + value
  }

  // ---------- three-valued meaning ----------

  datatype Truth = True | False | Unknown

  function Negate(a: Truth): Truth {
    match a
    case True => False
    case False => True
    case Unknown => Unknown
  }

  function Both(a: Truth, b: Truth): Truth {
    if a == False || b == False then False else if a == True && b == True then True else Unknown
  }

  function Either(a: Truth, b: Truth): Truth {
    Negate(Both(Negate(a), Negate(b)))
  }

  /** How one joined row evaluates each comparison, given by its own tokens. */
  type Reading = Tokens -> Truth

  function Eval(e: Pred, reading: Reading): Truth {
    match e
    case Atom(ts) => reading(ts)
    case Between(low, high) => reading(low + [AND] + high)
    case Case(guard, hit, miss, value) =>
      reading((if Eval(guard, reading) == True then hit else miss) + [EQUAL] + value)
    case Paren(p) => Eval(p, reading)
    case Not(p) => Negate(Eval(p, reading))
    case And(l, r) => Both(Eval(l, reading), Eval(r, reading))
    case Or(l, r) => Either(Eval(l, reading), Eval(r, reading))
  }

  // ---------- what the check accepts ----------

  function Strip(e: Pred): Pred {
    if e.Paren? then Strip(e.inner) else e
  }

  /** The operands of the outermost chain of ANDs. */
  function Conjuncts(e: Pred): seq<Pred> {
    if e.And? then Conjuncts(e.left) + Conjuncts(e.right) else [e]
  }

  predicate IsOwnedAtom(e: Pred, alias: Option<string>) {
    Strip(e).Atom? && OwnedForm(Strip(e).ts, alias)
  }

  predicate HasOwnedConjunct(e: Pred, alias: Option<string>) {
    exists c | c in Conjuncts(Strip(e)) :: IsOwnedAtom(c, alias)
  }

  // ---------- balanced token lists ----------

  lemma {:induction false} BalancedJoin(a: Tokens, b: Tokens, d: nat)
    requires Balanced(a, d) && Balanced(b, 0)
    ensures Balanced(a + b, d)
  {
    if a == [] {
      assert a + b == b;
    } else {
      assert (a + b)[1..] == a[1..] + b;
      BalancedJoin(a[1..], b, if Opens(a[0]) then d + 1 else if Closes(a[0]) then d - 1 else d);
    }
  }

  lemma {:induction false} SimpleIsBalanced(a: Tokens, d: nat)
    requires Simple(a, d)
    ensures Balanced(a, d)
  {
    if a != [] {
      SimpleIsBalanced(a[1..], if Opens(a[0]) then d + 1 else if Closes(a[0]) then d - 1 else d);
    }
  }

  function DepthAfter(t: Lexeme, depth: int): int {
    if Opens(t) then depth + 1 else if Closes(t) then depth - 1 else depth
  }

  lemma MatchFirst(ts: Tokens, depth: int)
    requires ts != [] && !(Closes(ts[0]) && depth == 1)
    ensures Match(ts, depth) == More(1, Match(ts[1..], DepthAfter(ts[0], depth)))
  {
  }

  lemma BalancedFirst(a: Tokens, d: nat)
    requires a != [] && Balanced(a, d)
    ensures DepthAfter(a[0], d) >= 0 && Balanced(a[1..], DepthAfter(a[0], d)) && !(Closes(a[0]) && d == 0)
  {
  }

  lemma MoreChain(x: Option<nat>, y: Option<nat>, z: Option<nat>, n: nat)
    requires x == More(1, y) && y == More(n, z)
    ensures x == More(n + 1, z)
  {
  }

  lemma {:induction false} MatchSkips(a: Tokens, rest: Tokens, d: nat)
    requires Balanced(a, d)
    ensures Match(a + rest, d + 1) == More(|a|, Match(rest, 1))
  {
    if a == [] {
      assert a + rest == rest;
    } else {
      BalancedFirst(a, d);
      var e: nat := DepthAfter(a[0], d);
      assert (a + rest)[1..] == a[1..] + rest;
      MatchFirst(a + rest, d + 1);
      MatchSkips(a[1..], rest, e);
      MoreChain(Match(a + rest, d + 1), Match(a[1..] + rest, e + 1), Match(rest, 1), |a| - 1);
    }
  }

  lemma {:induction false} MatchWithin(a: Tokens, rest: Tokens, d: nat)
    requires Balanced(a, d) && d >= 1
    ensures Match(a, d).Some? && Match(a + rest, d) == Match(a, d)
  {
    assert (a + rest)[1..] == a[1..] + rest;
    if Opens(a[0]) {
      MatchWithin(a[1..], rest, d + 1);
    } else if Closes(a[0]) {
      if d > 1 { MatchWithin(a[1..], rest, d - 1); }
    } else {
      MatchWithin(a[1..], rest, d);
    }
  }

  /** A balanced text followed by more text is not enclosed by one pair. */
  lemma NotWrapped(a: Tokens, rest: Tokens)
    requires a != [] && rest != [] && Balanced(a, 0)
    ensures Unwrap(a + rest) == Ok(a + rest)
  {
    if Opens(a[0]) {
      assert (a + rest)[1..] == a[1..] + rest;
      MatchWithin(a[1..], rest, 1);
    }
  }

  lemma WrappedUnwraps(a: Tokens)
    requires a != [] && Balanced(a, 0)
    ensures Unwrap([OPEN] + a + [CLOSE]) == Unwrap(a)
  {
    var ts := [OPEN] + a + [CLOSE];
    assert ts[1..] == a + [CLOSE];
    MatchSkips(a, [CLOSE], 0);
    assert ts[1..|a| + 1] == a;
  }

  // ---------- the parts of a balanced text ----------

  function Attach(a: Tokens, r: Option<seq<Tokens>>): Option<seq<Tokens>> {
    match r
    case Some(ps) => if ps == [] then Some([a]) else Some([a + ps[0]] + ps[1..])
    case None => None
  }

  lemma PushAttach(t: Lexeme, a: Tokens, r: Option<seq<Tokens>>)
    requires a != [] && a[0] == t
    ensures Push(t, Attach(a[1..], r)) == Attach(a, r)
  {
    assert a == [t] + a[1..];
    if r.Some? && r.value != [] {
      var ps := r.value;
      assert ([a[1..] + ps[0]] + ps[1..])[1..] == ps[1..];
      assert [t] + (a[1..] + ps[0]) == a + ps[0];
    } else if r.Some? {
      assert [a[1..]][1..] == [] && [a] + [] == [a];
    }
  }

  lemma AttachNothing(r: Option<seq<Tokens>>)
    requires r.Some? ==> r.value != []
    ensures Attach([], r) == r
  {
    if r.Some? {
      assert [] + r.value[0] == r.value[0] && [r.value[0]] + r.value[1..] == r.value;
    }
  }

  lemma {:induction false} CutSkips(a: Tokens, rest: Tokens, d: nat)
    requires Simple(a, d)
    ensures Cut(a + rest, d) == Attach(a, Cut(rest, 0))
  {
    if a == [] {
      assert a + rest == rest;
      AttachNothing(Cut(rest, 0));
    } else {
      assert (a + rest)[1..] == a[1..] + rest;
      CutSkips(a[1..], rest, if Opens(a[0]) then d + 1 else if Closes(a[0]) then d - 1 else d);
      PushAttach(a[0], a, Cut(rest, 0));
    }
  }

  lemma {:induction false} ShieldedByParentheses(a: Tokens, d: nat, rest: Tokens)
    requires Balanced(a, d) && Simple(rest, 0)
    ensures Simple(a + [CLOSE] + rest, d + 1)
  {
    var ts := a + [CLOSE] + rest;
    if a == [] {
      assert ts[1..] == rest;
    } else {
      assert ts[1..] == a[1..] + [CLOSE] + rest;
      ShieldedByParentheses(a[1..], if Opens(a[0]) then d + 1 else if Closes(a[0]) then d - 1 else d, rest);
    }
  }

  // ---------- printed conditions ----------

  lemma {:induction false} ShowIsBalanced(e: Pred)
    requires WellFormed(e)
    ensures Show(e) != [] && Balanced(Show(e), 0)
  {
    match e
    case Atom(ts) =>
      SimpleIsBalanced(ts, 0);
    case Between(low, high) =>
      SimpleIsBalanced(low, 0);
      SimpleIsBalanced(high, 0);
      JoinedIsBalanced(low, AND, high);
    case Case(_, _, _, _) =>
      SimpleIsBalanced(Show(e), 0);
    case Paren(p) =>
      ShowIsBalanced(p);
      ShieldedByParentheses(Show(p), 0, []);
      var ts := Show(p) + [CLOSE] + [];
      assert ([OPEN] + Show(p) + [CLOSE])[1..] == ts;
      SimpleIsBalanced(ts, 1);
    case Not(p) =>
      ShowIsBalanced(p);
      assert ([NOT] + Show(p))[1..] == Show(p);
    case And(l, r) =>
      ShowIsBalanced(l);
      ShowIsBalanced(r);
      JoinedIsBalanced(Show(l), AND, Show(r));
    case Or(l, r) =>
      ShowIsBalanced(l);
      ShowIsBalanced(r);
      JoinedIsBalanced(Show(l), OR, Show(r));
  }

  lemma JoinedIsBalanced(a: Tokens, t: Lexeme, b: Tokens)
    requires Balanced(a, 0) && Balanced(b, 0) && !Opens(t) && !Closes(t)
    ensures Balanced(a + [t] + b, 0)
  {
    assert ([t] + b)[1..] == b;
    BalancedJoin(a, [t] + b, 0);
    assert a + ([t] + b) == a + [t] + b;
  }

  lemma KeywordFacts()
    ensures !Opens(AND) && !Closes(AND) && IsAnd(AND) && !IsOr(AND)
    ensures !Opens(OR) && !Closes(OR) && IsOr(OR)
    ensures !Opens(NOT) && !Closes(NOT) && !Connective(NOT)
  {
    assert UpperAll("AND") == "AND" by { assert "AND"[1..] == "ND" && "ND"[1..] == "D" && "D"[1..] == ""; }
    assert UpperAll("OR") == "OR" by { assert "OR"[1..] == "R" && "R"[1..] == ""; }
    assert UpperAll("NOT") == "NOT" by { assert "NOT"[1..] == "OT" && "OT"[1..] == "T" && "T"[1..] == ""; }
  }

  // ---------- cutting a printed condition ----------

  /** The parts the check sees in a chain of ANDs. */
  function PartsOf(e: Pred): (ps: seq<Tokens>)
    ensures ps != []
  {
    match e
    case And(l, r) => PartsOf(l) + PartsOf(r)
    case Between(low, high) => [low, high]
    case Not(p) => [[NOT] + PartsOf(p)[0]] + PartsOf(p)[1..]
    case _ => [Show(e)]
  }

  function AttachAll(ps: seq<Tokens>, r: Option<seq<Tokens>>): Option<seq<Tokens>>
    requires ps != []
  {
    if |ps| == 1 then Attach(ps[0], r)
    else
      match AttachAll(ps[1..], r)
      case Some(qs) => Some([ps[0]] + qs)
      case None => None
  }

  lemma {:induction false} AttachAllEmpty(ps: seq<Tokens>)
    requires ps != []
    ensures AttachAll(ps, Some([[]])) == Some(ps)
  {
    if |ps| == 1 {
      var none: seq<Tokens> := [[]];
      assert ps[0] + [] == ps[0] && none[1..] == [] && [ps[0]] + none[1..] == ps;
    } else {
      AttachAllEmpty(ps[1..]);
      assert [ps[0]] + ps[1..] == ps;
    }
  }

  function AfterAnd(r: Option<seq<Tokens>>): Option<seq<Tokens>> {
    match r
    case Some(ps) => Some([[]] + ps)
    case None => None
  }

  lemma {:induction false} AttachAllJoined(ps: seq<Tokens>, qs: seq<Tokens>, r: Option<seq<Tokens>>)
    requires ps != [] && qs != []
    ensures AttachAll(ps, AfterAnd(AttachAll(qs, r))) == AttachAll(ps + qs, r)
  {
    if |ps| == 1 {
      assert (ps + qs)[1..] == qs && ps[0] + [] == ps[0];
      var x := AttachAll(qs, r);
      assert x.Some? ==> ([[]] + x.value)[1..] == x.value;
    } else {
      assert (ps + qs)[1..] == ps[1..] + qs;
      AttachAllJoined(ps[1..], qs, r);
    }
  }

  lemma CutAtAnd(ts: Tokens)
    requires ts != [] && ts[0] == AND
    ensures Cut(ts, 0) == AfterAnd(Cut(ts[1..], 0))
  {
    KeywordFacts();
  }

  lemma CutAtOr(ts: Tokens)
    requires ts != [] && ts[0] == OR
    ensures Cut(ts, 0) == None
  {
    KeywordFacts();
  }

  lemma {:induction false} CutShow(e: Pred, rest: Tokens)
    requires WellFormed(e)
    ensures Cut(Show(e) + rest, 0) == if e.Or? then None else AttachAll(PartsOf(e), Cut(rest, 0))
    decreases e
  {
    match e
    case Atom(ts) =>
      CutSkips(ts, rest, 0);
    case Between(low, high) =>
      CutBetween(low, high, rest);
    case Case(_, _, _, _) =>
      CutSkips(Show(e), rest, 0);
    case Paren(p) =>
      ShowIsBalanced(p);
      CutParenthesized(Show(p), rest);
    case Not(p) =>
      CutShow(p, rest);
      CutNot(p, rest);
    case And(l, r) =>
      var after := [AND] + (Show(r) + rest);
      assert Show(e) + rest == Show(l) + after && after[1..] == Show(r) + rest;
      CutShow(l, after);
      CutAtAnd(after);
      CutShow(r, rest);
      AttachAllJoined(PartsOf(l), PartsOf(r), Cut(rest, 0));
    case Or(l, r) =>
      var after := [OR] + (Show(r) + rest);
      assert Show(e) + rest == Show(l) + after;
      CutShow(l, after);
      CutAtOr(after);
      AttachAllNone(PartsOf(l));
  }

  lemma {:induction false} AttachAllNone(ps: seq<Tokens>)
    requires ps != []
    ensures AttachAll(ps, None) == None
  {
    if |ps| > 1 { AttachAllNone(ps[1..]); }
  }

  lemma CutBetween(low: Tokens, high: Tokens, rest: Tokens)
    requires Simple(low, 0) && Simple(high, 0)
    ensures Cut(low + [AND] + high + rest, 0) == AttachAll([low, high], Cut(rest, 0))
  {
    var after := [AND] + (high + rest);
    assert low + [AND] + high + rest == low + after && after[1..] == high + rest;
    CutSkips(low, after, 0);
    CutAtAnd(after);
    CutSkips(high, rest, 0);
    AttachAllJoined([low], [high], Cut(rest, 0));
    assert [low] + [high] == [low, high];
  }

  lemma CutParenthesized(a: Tokens, rest: Tokens)
    requires Balanced(a, 0)
    ensures Cut([OPEN] + a + [CLOSE] + rest, 0) == Attach([OPEN] + a + [CLOSE], Cut(rest, 0))
  {
    var ts := [OPEN] + a + [CLOSE];
    ShieldedByParentheses(a, 0, []);
    assert ts[1..] == a + [CLOSE] + [];
    CutSkips(ts, rest, 0);
  }

  lemma PushAll(t: Lexeme, ps: seq<Tokens>, r: Option<seq<Tokens>>)
    requires ps != []
    ensures Push(t, AttachAll(ps, r)) == AttachAll([[t] + ps[0]] + ps[1..], r)
  {
    var qs := [[t] + ps[0]] + ps[1..];
    assert qs[1..] == ps[1..];
    if |ps| == 1 {
      PushAttach(t, qs[0], r);
      assert qs[0][1..] == ps[0];
    }
  }

  lemma CutPushes(t: Lexeme, x: Tokens, rest: Tokens)
    requires !Opens(t) && !Closes(t) && !Connective(t)
    ensures Cut([t] + x + rest, 0) == Push(t, Cut(x + rest, 0))
  {
    assert ([t] + x + rest)[1..] == x + rest;
  }

  lemma CutNot(p: Pred, rest: Tokens)
    requires WellFormed(p) && !p.And? && !p.Or?
    requires Cut(Show(p) + rest, 0) == AttachAll(PartsOf(p), Cut(rest, 0))
    ensures Cut(Show(Not(p)) + rest, 0) == AttachAll(PartsOf(Not(p)), Cut(rest, 0))
  {
    KeywordFacts();
    CutPushes(NOT, Show(p), rest);
    PushAll(NOT, PartsOf(p), Cut(rest, 0));
  }

  // ---------- which parts are owned ----------

  lemma JoinedUnwraps(a: Tokens, t: Lexeme, b: Tokens)
    requires a != [] && Balanced(a, 0)
    ensures Unwrap(a + [t] + b) == Ok(a + [t] + b)
  {
    NotWrapped(a, [t] + b);
    assert a + ([t] + b) == a + [t] + b;
  }

  lemma {:induction false} UnwrapShow(e: Pred)
    requires WellFormed(e)
    ensures Unwrap(Show(e)) == Ok(Show(Strip(e)))
    decreases e
  {
    match e
    case Atom(ts) =>
      SimpleIsBalanced(ts, 0);
      if Opens(ts[0]) {
        MatchWithin(ts[1..], [], 1);
      }
    case Between(low, high) =>
      SimpleIsBalanced(low, 0);
      JoinedUnwraps(low, AND, high);
    case Case(_, _, _, _) =>
      CaseStart(e);
    case Paren(p) =>
      ShowIsBalanced(p);
      WrappedUnwraps(Show(p));
      UnwrapShow(p);
    case Not(p) =>
      KeywordFacts();
    case And(l, r) =>
      ShowIsBalanced(l);
      JoinedUnwraps(Show(l), AND, Show(r));
    case Or(l, r) =>
      ShowIsBalanced(l);
      JoinedUnwraps(Show(l), OR, Show(r));
  }

  lemma CaseStart(e: Pred)
    requires e.Case?
    ensures Show(e) != [] && Show(e)[0] == CASE && Show(e)[1] == WHEN && !Opens(CASE) && |Show(e)| >= 6
  {
  }

  lemma CaseUnowned(e: Pred, alias: Option<string>)
    requires e.Case?
    ensures !OwnedForm(Show(e), alias)
  {
    CaseStart(e);
  }

  lemma NotPartUnowned(x: Tokens, alias: Option<string>)
    requires NoBareQualifier(x)
    ensures Unwrap([NOT] + x) == Ok([NOT] + x) && !OwnedForm([NOT] + x, alias)
  {
    KeywordFacts();
    var ts := [NOT] + x;
    assert ts[1..] == x;
    assert Ident(NOT) == "NOT" && |"NOT"| != |"IsFrameworkDefault"|;
    if |ts| == 5 && ts[1].value == "." {
      assert x[0] == ts[1] && ts[2..][0] == x[1];
    }
  }

  lemma InnerConnectiveUnowned(a: Tokens, t: Lexeme, b: Tokens, alias: Option<string>)
    requires a != [] && b != [] && (t == AND || t == OR)
    ensures !OwnedForm(a + [t] + b, alias)
  {
    var ts, i := a + [t] + b, |a|;
    assert ts[i] == t && 1 < |t.value| < 18 && Ident(t) == t.value;
    if |ts| == 5 && ts[1].value == "." {
      assert ts[2..][0] == ts[2] && ts[2..][1] == ts[3];
    }
  }

  lemma NoBareQualifierShown(p: Pred)
    requires WellFormed(p) && !p.And? && !p.Or?
    ensures NoBareQualifier(Show(p)) && NoBareQualifier(PartsOf(p)[0])
  {
    if p.Case? {
      CaseStart(p);
    }
    if p.Between? && |p.low| == 1 {
      assert Show(p)[1] == AND && Ident(AND) == "AND" && |"AND"| != |"IsFrameworkDefault"|;
    }
  }

  lemma {:induction false} NoneOwned(ps: seq<Tokens>, alias: Option<string>)
    requires forall p | p in ps :: !IsOwnedPart(p)
    ensures AnyOwned(ps, alias) == Ok(false)
  {
    if ps != [] {
      assert ps[0] in ps;
      NoneOwned(ps[1..], alias);
    }
  }

  lemma {:induction false} LaterPartsUnowned(p: Pred)
    requires WellFormed(p) && !p.And? && !p.Or?
    ensures forall x | x in PartsOf(p)[1..] :: !IsOwnedPart(x)
  {
    if p.Not? {
      LaterPartsUnowned(p.op);
      assert PartsOf(p)[1..] == PartsOf(p.op)[1..];
    }
  }

  lemma OwnedShown(s: Pred, alias: Option<string>)
    requires WellFormed(s) && !s.Paren?
    ensures OwnedForm(Show(s), alias) == (s.Atom? && OwnedForm(s.ts, alias))
  {
    match s
    case Atom(ts) =>
    case Between(low, high) => InnerConnectiveUnowned(low, AND, high, alias);
    case Case(_, _, _, _) => CaseUnowned(s, alias);
    case Not(p) =>
      NoBareQualifierShown(p);
      NotPartUnowned(Show(p), alias);
    case And(l, r) =>
      ShowIsBalanced(l);
      ShowIsBalanced(r);
      InnerConnectiveUnowned(Show(l), AND, Show(r), alias);
    case Or(l, r) =>
      ShowIsBalanced(l);
      ShowIsBalanced(r);
      InnerConnectiveUnowned(Show(l), OR, Show(r), alias);
  }

  lemma StripWellFormed(e: Pred)
    requires WellFormed(e)
    ensures WellFormed(Strip(e)) && !Strip(e).Paren?
  {
  }

  lemma ConjunctParts(c: Pred, alias: Option<string>)
    requires WellFormed(c) && !c.And? && !c.Or?
    ensures AnyOwned(PartsOf(c), alias) == Ok(IsOwnedAtom(c, alias))
  {
    match c
    case Between(low, high) =>
      NoneOwned([low, high], alias);
    case Not(p) =>
      NoBareQualifierShown(p);
      NotPartUnowned(PartsOf(p)[0], alias);
      LaterPartsUnowned(p);
      NoneOwned(PartsOf(p)[1..], alias);
      assert PartsOf(c)[1..] == PartsOf(p)[1..];
    case _ =>
      UnwrapShow(c);
      StripWellFormed(c);
      OwnedShown(Strip(c), alias);
  }

  lemma {:induction false} AnyOwnedJoined(ps: seq<Tokens>, qs: seq<Tokens>, alias: Option<string>)
    ensures AnyOwned(ps + qs, alias)
         == if AnyOwned(ps, alias) == Ok(false) then AnyOwned(qs, alias) else AnyOwned(ps, alias)
  {
    if ps == [] {
      assert ps + qs == qs;
    } else {
      assert (ps + qs)[1..] == ps[1..] + qs;
      AnyOwnedJoined(ps[1..], qs, alias);
    }
  }

  lemma {:induction false} AnyOwnedParts(e: Pred, alias: Option<string>)
    requires WellFormed(e) && !e.Or?
    ensures AnyOwned(PartsOf(e), alias) == Ok(exists c | c in Conjuncts(e) :: IsOwnedAtom(c, alias))
    decreases e
  {
    if e.And? {
      AnyOwnedParts(e.left, alias);
      AnyOwnedParts(e.right, alias);
      AnyOwnedJoined(PartsOf(e.left), PartsOf(e.right), alias);
      if c :| c in Conjuncts(e) && IsOwnedAtom(c, alias) {
        assert c in Conjuncts(e.left) || c in Conjuncts(e.right);
      }
    } else {
      ConjunctParts(e, alias);
      assert e in Conjuncts(e);
    }
  }

  /** The check, run on the printed form of any search condition, accepts exactly
    * when the condition is not a disjunction and one operand of its outermost
    * chain of ANDs is the flag comparison; it never reports a parenthesis error. */
  lemma OwnsExactly(e: Pred, alias: Option<string>)
    requires WellFormed(e)
    ensures Owns(Show(e), alias) == Ok(!Strip(e).Or? && HasOwnedConjunct(e, alias))
  {
    UnwrapShow(e);
    StripWellFormed(e);
    var s := Strip(e);
    CutShow(s, []);
    assert Show(s) + [] == Show(s) && Cut([], 0) == Some([[]]);
    if !s.Or? {
      AttachAllEmpty(PartsOf(s));
      AnyOwnedParts(s, alias);
    }
  }

  // ---------- the case of connectives ----------

  /** The word in capital and small letters of any mixture. */
  predicate Spells(text: string, word: string) {
    |text| == |word| && forall i | 0 <= i < |word| :: text[i] == word[i] || text[i] as int == word[i] as int + 32
  }

  predicate SpellsConnective(text: string) {
    Spells(text, "AND") || Spells(text, "OR")
  }

  /** The same token, or the same connective spelled in another case. */
  predicate SameWord(t: Lexeme, u: Lexeme) {
    || t == u
    || (t.kind == PlainToken && u.kind == PlainToken
        && ((Spells(t.value, "AND") && Spells(u.value, "AND")) || (Spells(t.value, "OR") && Spells(u.value, "OR"))))
  }

  predicate Recased(ts: Tokens, us: Tokens) {
    |ts| == |us| && forall i | 0 <= i < |ts| :: SameWord(ts[i], us[i])
  }

  lemma {:induction false} SpelledUpper(text: string, word: string)
    requires Spells(text, word) && forall i | 0 <= i < |word| :: 'A' <= word[i] <= 'Z'
    ensures UpperAll(text) == word
  {
    if text != [] {
      assert text[0] == word[0] || text[0] as int == word[0] as int + 32;
      SpelledUpper(text[1..], word[1..]);
      assert word == [word[0]] + word[1..];
    }
  }

  lemma SpelledAnd(t: Lexeme)
    requires t.kind == PlainToken && Spells(t.value, "AND")
    ensures IsAnd(t) && !IsOr(t) && !Opens(t) && !Closes(t)
  {
    SpelledUpper(t.value, "AND");
  }

  lemma SpelledOr(t: Lexeme)
    requires t.kind == PlainToken && Spells(t.value, "OR")
    ensures IsOr(t) && !IsAnd(t) && !Opens(t) && !Closes(t)
  {
    SpelledUpper(t.value, "OR");
  }

  lemma SameRole(t: Lexeme, u: Lexeme)
    requires SameWord(t, u)
    ensures IsAnd(t) == IsAnd(u) && IsOr(t) == IsOr(u) && Opens(t) == Opens(u) && Closes(t) == Closes(u)
    ensures t != u ==> 2 <= |t.value| <= 3 && 2 <= |u.value| <= 3 && Ident(t) == t.value && Ident(u) == u.value
    ensures t != u ==> SpellsConnective(t.value) && SpellsConnective(u.value)
  {
    if t != u {
      if Spells(t.value, "AND") {
        SpelledAnd(t);
        SpelledAnd(u);
      } else {
        SpelledOr(t);
        SpelledOr(u);
      }
    }
  }

  lemma {:induction false} MatchRecased(ts: Tokens, us: Tokens, depth: int)
    requires Recased(ts, us)
    ensures Match(ts, depth) == Match(us, depth)
  {
    if ts != [] {
      SameRole(ts[0], us[0]);
      var d := if Opens(ts[0]) then depth + 1 else if Closes(ts[0]) then depth - 1 else depth;
      MatchRecased(ts[1..], us[1..], d);
    }
  }

  ghost predicate RecasedResult(r: Result<Tokens, BuildError>, q: Result<Tokens, BuildError>) {
    if r.Ok? then q.Ok? && Recased(r.value, q.value) else r == q
  }

  lemma {:induction false} UnwrapRecased(ts: Tokens, us: Tokens)
    requires Recased(ts, us)
    ensures RecasedResult(Unwrap(ts), Unwrap(us))
    decreases |ts|
  {
    if ts != [] {
      SameRole(ts[0], us[0]);
      MatchRecased(ts, us, 0);
      if Opens(ts[0]) && Match(ts, 0) == Some(|ts| - 1) {
        UnwrapRecased(ts[1..|ts| - 1], us[1..|us| - 1]);
      }
    }
  }

  ghost predicate RecasedParts(r: Option<seq<Tokens>>, q: Option<seq<Tokens>>) {
    match r
    case None => q == None
    case Some(ps) => q.Some? && |q.value| == |ps| && forall k | 0 <= k < |ps| :: Recased(ps[k], q.value[k])
  }

  lemma PushRecased(t: Lexeme, u: Lexeme, r: Option<seq<Tokens>>, q: Option<seq<Tokens>>)
    requires SameWord(t, u) && RecasedParts(r, q)
    ensures RecasedParts(Push(t, r), Push(u, q))
  {
  }

  lemma {:induction false} CutRecased(ts: Tokens, us: Tokens, depth: int)
    requires Recased(ts, us)
    ensures RecasedParts(Cut(ts, depth), Cut(us, depth))
  {
    if ts != [] {
      SameRole(ts[0], us[0]);
      var d := if Opens(ts[0]) then depth + 1 else if Closes(ts[0]) then depth - 1 else depth;
      CutRecased(ts[1..], us[1..], d);
      PushRecased(ts[0], us[0], Cut(ts[1..], d), Cut(us[1..], d));
    }
  }

  predicate NoConnectiveAlias(alias: Option<string>) {
    alias.Some? ==> !SpellsConnective(alias.value)
  }

  lemma FlagRecased(ts: Tokens, us: Tokens)
    requires Recased(ts, us)
    ensures FlagIsOne(ts) == FlagIsOne(us)
  {
    if |ts| == 3 {
      SameRole(ts[0], us[0]);
      SameRole(ts[1], us[1]);
      SameRole(ts[2], us[2]);
    }
  }

  lemma OwnedRecased(ts: Tokens, us: Tokens, alias: Option<string>)
    requires Recased(ts, us) && NoConnectiveAlias(alias)
    ensures OwnedForm(ts, alias) == OwnedForm(us, alias)
  {
    FlagRecased(ts, us);
    if |ts| == 5 {
      SameRole(ts[0], us[0]);
      SameRole(ts[1], us[1]);
      FlagRecased(ts[2..], us[2..]);
    }
  }

  lemma {:induction false} AnyOwnedRecased(ps: seq<Tokens>, qs: seq<Tokens>, alias: Option<string>)
    requires RecasedParts(Some(ps), Some(qs)) && NoConnectiveAlias(alias)
    ensures AnyOwned(ps, alias) == AnyOwned(qs, alias)
  {
    if ps != [] {
      UnwrapRecased(ps[0], qs[0]);
      if Unwrap(ps[0]).Ok? {
        OwnedRecased(Unwrap(ps[0]).value, Unwrap(qs[0]).value, alias);
      }
      AnyOwnedRecased(ps[1..], qs[1..], alias);
    }
  }

  /** The case in which AND and OR are written does not change the verdict. */
  lemma CaseOfConnectivesIsIgnored(ts: Tokens, us: Tokens, alias: Option<string>)
    requires Recased(ts, us) && NoConnectiveAlias(alias)
    ensures Owns(ts, alias) == Owns(us, alias)
  {
    UnwrapRecased(ts, us);
    if Unwrap(ts).Ok? {
      var inner, other := Unwrap(ts).value, Unwrap(us).value;
      CutRecased(inner, other, 0);
      if Cut(inner, 0).Some? {
        AnyOwnedRecased(Cut(inner, 0).value, Cut(other, 0).value, alias);
      }
    }
  }

  // ---------- the rows a statement may touch ----------

  /** A row of the target table: the ownership flag and everything else. */
  datatype Row = Row(flag: Option<int>, content: nat)

  /** A column value compared with a number. */
  function Compared(value: Option<int>, n: int): Truth {
    match value
    case None => Unknown
    case Some(m) => if m == n then True else False
  }

  /** Column, equals sign, numeral. */
  predicate FlagEquals(column: Lexeme, sign: Lexeme, number: Lexeme) {
    Ident(column) == "IsFrameworkDefault" && sign.value == "=" && Decimals.Numeral(number.value)
  }

  /** The flag of the target compared with a number: the column unqualified, or
    * qualified by the target's own alias. */
  predicate ComparesFlag(ts: Tokens, alias: Option<string>) {
    || (|ts| == 3 && FlagEquals(ts[0], ts[1], ts[2]))
    || (|ts| == 5 && alias == Some(Ident(ts[0])) && ts[1].value == "." && FlagEquals(ts[2], ts[3], ts[4]))
  }

  /** Each comparison of the flag with a number reads the target's own row; nothing
    * is known about any other comparison. */
  ghost predicate ReadsFlag(reading: Reading, row: Row, alias: Option<string>) {
    forall ts: Tokens | ComparesFlag(ts, alias) ::
      reading(ts) == Compared(row.flag, Decimals.Number(ts[|ts| - 1].value))
  }

  lemma OneIsNumeral(one: string)
    requires one == "1"
    ensures Decimals.Numeral(one) && Decimals.Number(one) == 1
  {
    assert one[1..] == [];
  }

  /** The accepted form is a comparison of the target's flag with 1. */
  lemma OwnedCompares(ts: Tokens, alias: Option<string>)
    requires OwnedForm(ts, alias)
    ensures ComparesFlag(ts, alias) && Decimals.Number(ts[|ts| - 1].value) == 1
  {
    OneIsNumeral(ts[|ts| - 1].value);
  }

  lemma OwnedReading(ts: Tokens, alias: Option<string>, reading: Reading, row: Row)
    requires OwnedForm(ts, alias) && ReadsFlag(reading, row, alias)
    ensures reading(ts) == Compared(row.flag, 1)
  {
    OwnedCompares(ts, alias);
  }

  lemma LongIdentIsNoSyntax(t: Lexeme)
    requires |Ident(t)| > 3
    ensures !Opens(t) && !Closes(t) && !Connective(t)
  {
    if t.kind == IdentifierToken && |t.value| >= 2 {
      ReplaceShortens(t.value[1..|t.value| - 1], "]]", "]");
    }
    KeywordFacts();
  }

  predicate NoSyntax(ts: Tokens) {
    forall i | 0 <= i < |ts| :: !Opens(ts[i]) && !Closes(ts[i]) && !Connective(ts[i])
  }

  lemma PushOne(t: Lexeme, x: Tokens)
    ensures Push(t, Some([x])) == Some([[t] + x])
  {
    assert [[t] + x] + [x][1..] == [[t] + x];
  }

  lemma PushTwo(t: Lexeme, x: Tokens, y: Tokens)
    ensures Push(t, Some([x, y])) == Some([[t] + x, y])
  {
    assert [[t] + x] + [x, y][1..] == [[t] + x, y];
  }

  lemma CutLast(t: Lexeme, d: int)
    ensures Cut([t], d) ==
      if d == 0 && IsOr(t) then None else if d == 0 && IsAnd(t) then Some([[], []]) else Some([[t]])
  {
    var ts := [t];
    assert ts[1..] == [] && ts + [] == ts && Cut([], d) == Some([[]]);
    PushOne(t, []);
    if Connective(t) {
      ConnectiveIsLonger(t);
      var none: seq<Tokens> := [[]];
      assert none + none == [[], []];
    }
  }

  lemma ConnectiveIsLonger(t: Lexeme)
    ensures Connective(t) ==> |t.value| > 1
  {
    assert |t.value| == |Keyword(t)|;
  }

  /** Words are kept together with the token behind them, unless that is a connective. */
  lemma {:induction false} CutWords(a: Tokens, t: Lexeme, d: int)
    requires NoSyntax(a)
    ensures Cut(a + [t], d) ==
      if d == 0 && IsOr(t) then None else if d == 0 && IsAnd(t) then Some([a, []]) else Some([a + [t]])
  {
    if a == [] {
      CutLast(t, d);
      assert a + [t] == [t];
    } else {
      var ts, rest := a + [t], a[1..] + [t];
      assert ts[0] == a[0] && ts[1..] == rest && a == [a[0]] + a[1..] && [a[0]] + rest == ts;
      CutWords(a[1..], t, d);
      PushOne(a[0], rest);
      PushTwo(a[0], a[1..], []);
    }
  }

  lemma AnyOwnedOne(a: Tokens, alias: Option<string>)
    requires a != [] && !Opens(a[0])
    ensures AnyOwned([a], alias) == Ok(OwnedForm(a, alias)) && AnyOwned([a, []], alias) == Ok(OwnedForm(a, alias))
  {
    var one, two := [a], [a, []];
    assert one[1..] == [] && two[1..] == [[]] && two[1..][1..] == [];
    assert AnyOwned(two[1..], alias) == Ok(false);
  }

  /** What is accepted of words with one more token. */
  lemma WordsOwned(a: Tokens, t: Lexeme, alias: Option<string>)
    requires a != [] && !Opens(a[0])
    requires Cut(a + [t], 0) == if IsOr(t) then None else if IsAnd(t) then Some([a, []]) else Some([a + [t]])
    ensures Owns(a + [t], alias) == Ok(!IsOr(t) && OwnedForm(if IsAnd(t) then a else a + [t], alias))
  {
    var ts := a + [t];
    assert ts[0] == a[0];
    if IsOr(t) {
      assert Unwrap(ts) == Ok(ts);
    } else if IsAnd(t) {
      OwnsOfParts(ts, [a, []], alias);
      AnyOwnedOne(a, alias);
    } else {
      OwnsOfParts(ts, [ts], alias);
      AnyOwnedOne(ts, alias);
    }
  }

  lemma SignIsNoSyntax(t: Lexeme)
    requires t.value == "=" || t.value == "."
    ensures !Opens(t) && !Closes(t) && !Connective(t)
  {
    assert |Keyword(t)| == 1;
  }

  /** A comparison of the flag is accepted exactly if it is with 1, whatever token
    * stands there. */
  lemma FlagComparisonAccepted(c: Lexeme, e: Lexeme, n: Lexeme, alias: Option<string>)
    requires Ident(c) == "IsFrameworkDefault" && e.value == "="
    ensures Owns([c, e, n], alias) == Ok(n.value == "1")
  {
    var ts, words := [c, e, n], [c, e];
    LongIdentIsNoSyntax(c);
    SignIsNoSyntax(e);
    CutWords(words, n, 0);
    WordsOwned(words, n, alias);
    assert words + [n] == ts;
    ConnectiveIsLonger(n);
  }

  /** A qualified comparison of the flag is accepted exactly if it is with 1 and the
    * qualifier is the target's own alias. */
  lemma QualifiedComparisonAccepted(q: Lexeme, p: Lexeme, c: Lexeme, e: Lexeme, n: Lexeme, alias: Option<string>)
    requires !Opens(q) && !Connective(q) && p.value == "." && Ident(c) == "IsFrameworkDefault" && e.value == "="
    ensures Owns([q, p, c, e, n], alias) == Ok(n.value == "1" && alias == Some(Ident(q)))
  {
    var words := [q, p, c, e];
    SignIsNoSyntax(p);
    LongIdentIsNoSyntax(c);
    SignIsNoSyntax(e);
    CutQualified(q, [p, c, e], n);
    assert [q] + [p, c, e] == words && words + [n] == [q, p, c, e, n];
    ConnectiveIsLonger(n);
    if Closes(q) && Connective(n) {
      OwnsOfParts(words + [n], [words + [n]], alias);
      AnyOwnedOne(words + [n], alias);
    } else {
      WordsOwned(words, n, alias);
    }
    assert (words + [n])[2..] == [c, e, n];
  }

  lemma CutQualified(q: Lexeme, a: Tokens, n: Lexeme)
    requires NoSyntax(a) && !Opens(q) && !Connective(q)
    ensures Cut([q] + a + [n], 0) == if Closes(q) then Some([[q] + a + [n]])
      else if IsOr(n) then None else if IsAnd(n) then Some([[q] + a, []]) else Some([[q] + a + [n]])
  {
    var ts := [q] + a + [n];
    assert ts[0] == q && ts[1..] == a + [n] && [q] + (a + [n]) == ts;
    CutWords(a, n, if Closes(q) then -1 else 0);
    PushOne(q, a + [n]);
    PushTwo(q, a, []);
  }

  lemma {:induction false} StripEval(e: Pred, reading: Reading)
    ensures Eval(Strip(e), reading) == Eval(e, reading)
  {
    if e.Paren? { StripEval(e.inner, reading); }
  }

  lemma {:induction false} ConjunctsTrue(e: Pred, reading: Reading)
    requires Eval(e, reading) == True
    ensures forall c | c in Conjuncts(e) :: Eval(c, reading) == True
  {
    if e.And? {
      ConjunctsTrue(e.left, reading);
      ConjunctsTrue(e.right, reading);
    }
  }

  /** An accepted condition that is true has the flag comparison true. */
  lemma AcceptedComparison(e: Pred, alias: Option<string>, reading: Reading) returns (ts: Tokens)
    requires WellFormed(e) && Owns(Show(e), alias) == Ok(true) && Eval(e, reading) == True
    ensures OwnedForm(ts, alias) && reading(ts) == True
  {
    OwnsExactly(e, alias);
    var c :| c in Conjuncts(Strip(e)) && IsOwnedAtom(c, alias);
    StripEval(e, reading);
    ConjunctsTrue(Strip(e), reading);
    StripEval(c, reading);
    ts := Strip(c).ts;
  }

  /** Whenever the check accepts, every row for which the condition is true in
    * three-valued logic is a framework row. */
  lemma AcceptedRowsAreOwned(e: Pred, alias: Option<string>, reading: Reading, row: Row)
    requires WellFormed(e) && Owns(Show(e), alias) == Ok(true)
    requires ReadsFlag(reading, row, alias) && Eval(e, reading) == True
    ensures row.flag == Some(1)
  {
    var ts := AcceptedComparison(e, alias, reading);
    OwnedReading(ts, alias, reading, row);
  }

  // ---------- where the condition comes from ----------

  predicate IsWhere(t: Lexeme) { Keyword(t) == "WHERE" }

  predicate IsEnd(t: Lexeme) { t.value == ";" }

  const WHERE := Lexeme("WHERE", PlainToken)

  /** The first position at or after `i` and before `high` that satisfies `p`. */
  function FirstAt(ts: Tokens, i: nat, high: nat, p: Lexeme -> bool): (r: nat)
    requires i <= high <= |ts|
    ensures i <= r <= high && (r < high ==> p(ts[r])) && forall k | i <= k < r :: !p(ts[k])
    decreases high - i
  {
    if i == high || p(ts[i]) then i else FirstAt(ts, i + 1, high, p)
  }

  /** The search condition of the statement whose target starts at `pos`. */
  function ConditionAt(ts: Tokens, pos: nat): Tokens
    requires pos <= |ts|
  {
    var end := FirstAt(ts, pos, |ts|, IsEnd);
    var w := FirstAt(ts, pos, end, IsWhere);
    if w < end then ts[w + 1..end] else []
  }

  lemma ConditionBetween(ts: Tokens, pos: nat, w: nat, stop: nat)
    requires pos <= w < stop <= |ts|
    requires forall k | pos <= k < stop :: !IsEnd(ts[k])
    requires forall k | pos <= k < w :: !IsWhere(ts[k])
    requires IsWhere(ts[w]) && (stop < |ts| ==> IsEnd(ts[stop]))
    ensures ConditionAt(ts, pos) == ts[w + 1..stop]
  {
    assert FirstAt(ts, pos, |ts|, IsEnd) == stop;
    assert FirstAt(ts, pos, stop, IsWhere) == w;
  }

  lemma WhereKeyword()
    ensures IsWhere(WHERE) && !IsEnd(WHERE)
  {
    assert UpperAll("WHERE") == "WHERE" by {
      assert "WHERE"[1..] == "HERE" && "HERE"[1..] == "ERE" && "ERE"[1..] == "RE" && "RE"[1..] == "E" && "E"[1..] == "";
    }
  }

  predicate NoEnd(ts: Tokens) { forall t | t in ts :: !IsEnd(t) }

  predicate NoWhere(ts: Tokens) { forall t | t in ts :: !IsWhere(t) }

  predicate EndsStatement(after: Tokens) { after == [] || IsEnd(after[0]) }

  /** The condition is what follows the first WHERE. */
  lemma ConditionAfterFirst(before: Tokens, head: Tokens, rest: Tokens, after: Tokens)
    requires NoEnd(head) && NoWhere(head) && NoEnd(rest) && EndsStatement(after)
    ensures ConditionAt(before + head + [WHERE] + rest + after, |before|) == rest
  {
    var ts, pos := before + head + [WHERE] + rest + after, |before|;
    var w := pos + |head|;
    var stop := w + 1 + |rest|;
    WhereKeyword();
    forall k | pos <= k < stop ensures !IsEnd(ts[k]) && (k < w ==> !IsWhere(ts[k])) {
      assert ts[k] == if k < w then head[k - pos] else if k == w then WHERE else rest[k - w - 1];
    }
    ConditionBetween(ts, pos, w, stop);
    assert ts[w + 1..stop] == rest;
  }

  lemma LaterWhere(ts: Tokens, pos: nat, w: nat, own: nat, stop: nat)
    requires pos <= w < own < stop <= |ts| && IsWhere(ts[w])
    requires forall k | pos <= k < stop :: !IsEnd(ts[k])
    requires stop < |ts| ==> IsEnd(ts[stop])
    ensures |ConditionAt(ts, pos)| > stop - own - 1
  {
    assert FirstAt(ts, pos, |ts|, IsEnd) == stop;
    assert FirstAt(ts, pos, stop, IsWhere) <= w;
  }

  lemma EarlierWhereIsTaken(before: Tokens, head: Tokens, condition: Tokens, after: Tokens, i: nat)
    requires NoEnd(head) && NoEnd(condition) && EndsStatement(after) && i < |head| && IsWhere(head[i])
    ensures |ConditionAt(before + head + [WHERE] + condition + after, |before|)| > |condition|
  {
    var ts, pos := before + head + [WHERE] + condition + after, |before|;
    var own := pos + |head|;
    WhereKeyword();
    forall k | pos <= k < own + 1 + |condition| ensures !IsEnd(ts[k]) {
      assert ts[k] == if k < own then head[k - pos] else if k == own then WHERE else condition[k - own - 1];
    }
    assert ts[pos + i] == head[i];
    LaterWhere(ts, pos, pos + i, own, own + 1 + |condition|);
  }

  /** The condition that is extracted is the statement's own if and only if no WHERE
    * stands before its WHERE. */
  lemma ConditionFound(before: Tokens, head: Tokens, condition: Tokens, after: Tokens)
    requires NoEnd(head) && NoEnd(condition) && EndsStatement(after)
    ensures ConditionAt(before + head + [WHERE] + condition + after, |before|) == condition <==> NoWhere(head)
  {
    if NoWhere(head) {
      ConditionAfterFirst(before, head, condition, after);
    } else {
      var i :| 0 <= i < |head| && IsWhere(head[i]);
      EarlierWhereIsTaken(before, head, condition, after, i);
    }
  }

  lemma NoCondition(before: Tokens, head: Tokens, after: Tokens)
    requires NoEnd(head) && NoWhere(head) && EndsStatement(after)
    ensures ConditionAt(before + head + after, |before|) == []
  {
    var ts, pos := before + head + after, |before|;
    forall k | pos <= k < pos + |head| ensures !IsEnd(ts[k]) && !IsWhere(ts[k]) {
      assert ts[k] == head[k - pos];
    }
    assert after != [] ==> ts[pos + |head|] == after[0];
    assert FirstAt(ts, pos, |ts|, IsEnd) == pos + |head|;
    assert FirstAt(ts, pos, pos + |head|, IsWhere) == pos + |head|;
  }

  /** A statement without a condition is refused. */
  lemma NoConditionRefused(alias: Option<string>)
    ensures Owns([], alias) == Ok(false)
  {
    assert Unwrap([]) == Ok([]) && Cut([], 0) == Some([[]]);
    assert AnyOwned([[]], alias) == AnyOwned([], alias);
  }

  // ---------- statements ----------

  /** An UPDATE or DELETE in its source: the tokens before its target, from there to
    * its WHERE, its condition if it has one, and what follows.  `joined` gives, for
    * each target row, how each joined combination it takes part in evaluates
    * comparisons. */
  datatype Statement = Statement(
    before: Tokens, head: Tokens, condition: Option<Pred>, after: Tokens, alias: Option<string>,
    joined: nat -> seq<Reading>)
  {
    function Text(): Tokens {
      match condition
      case Some(e) => before + head + [WHERE] + Show(e) + after
      case None => before + head + after
    }
  }

  type Table = map<nat, Row>

  /** What the generator checks. */
  predicate Admitted(s: Statement) {
    Owns(ConditionAt(s.Text(), |s.before|), s.alias) == Ok(true)
  }

  /** The statement ends at its first semicolon, and its condition is well formed. */
  predicate Shaped(s: Statement) {
    && NoEnd(s.head) && EndsStatement(s.after)
    && (s.condition.Some? ==> WellFormed(s.condition.value) && NoEnd(Show(s.condition.value)))
  }

  ghost predicate Touches(s: Statement, id: nat) {
    s.condition.None? || exists k | 0 <= k < |s.joined(id)| :: Eval(s.condition.value, s.joined(id)[k]) == True
  }

  ghost predicate ReadsRow(s: Statement, id: nat, row: Row) {
    forall k | 0 <= k < |s.joined(id)| :: ReadsFlag(s.joined(id)[k], row, s.alias)
  }

  /** A row that satisfies the condition in no combination is left as it was; what
    * happens to the others (a new value, removal) is not constrained. */
  ghost predicate Executes(s: Statement, before: Table, after: Table) {
    forall id | id in before ::
      ReadsRow(s, id, before[id]) && (Touches(s, id) || (id in after && after[id] == before[id]))
  }

  ghost predicate RunsThrough(ss: seq<Statement>, tables: seq<Table>) {
    |tables| == |ss| + 1 && forall i | 0 <= i < |ss| :: Executes(ss[i], tables[i], tables[i + 1])
  }

  predicate Custom(row: Row) {
    row.flag != Some(1)
  }

  /** A shaped statement without a WHERE before its own is judged by its own
    * condition, and has one if it is admitted. */
  lemma JudgedByOwnCondition(s: Statement)
    requires Shaped(s) && NoWhere(s.head) && Admitted(s)
    ensures s.condition.Some? && Owns(Show(s.condition.value), s.alias) == Ok(true)
  {
    if s.condition.None? {
      NoCondition(s.before, s.head, s.after);
      NoConditionRefused(s.alias);
    } else {
      ConditionFound(s.before, s.head, Show(s.condition.value), s.after);
    }
  }

  /** An admitted statement without a WHERE before its own. */
  predicate Trusted(s: Statement) {
    Shaped(s) && NoWhere(s.head) && Admitted(s)
  }

  predicate KeepsCustom(before: Table, after: Table, id: nat) {
    id in before && Custom(before[id]) ==> id in after && after[id] == before[id]
  }

  lemma StatementKeepsCustomRow(s: Statement, before: Table, after: Table, id: nat)
    ensures Trusted(s) && Executes(s, before, after) ==> KeepsCustom(before, after, id)
  {
    if Trusted(s) && Executes(s, before, after) && id in before && Custom(before[id]) && Touches(s, id) {
      JudgedByOwnCondition(s);
      assert ReadsRow(s, id, before[id]);
      var k :| 0 <= k < |s.joined(id)| && Eval(s.condition.value, s.joined(id)[k]) == True;
      AcceptedRowsAreOwned(s.condition.value, s.alias, s.joined(id)[k], before[id]);
    }
  }

  lemma {:induction false} KeptThroughout(tables: seq<Table>, i: nat, j: nat, id: nat)
    requires i <= j < |tables| && forall k, m | i <= k < j && m == k + 1 :: KeepsCustom(tables[k], tables[m], id)
    ensures KeepsCustom(tables[i], tables[j], id)
    decreases j - i
  {
    if i < j {
      KeptThroughout(tables, i, j - 1, id);
      assert KeepsCustom(tables[j - 1], tables[j], id);
    }
  }

  /** No sequence of admitted statements changes or removes a custom row, from any
    * table on in which the row is custom, if no statement has a WHERE before its own. */
  lemma CustomRowsSurvive(ss: seq<Statement>, tables: seq<Table>, i: nat, j: nat, id: nat)
    requires RunsThrough(ss, tables) && forall s | s in ss :: Trusted(s)
    requires i <= j < |tables| && id in tables[i] && Custom(tables[i][id])
    ensures id in tables[j] && tables[j][id] == tables[i][id]
  {
    forall k, m | i <= k < j && m == k + 1 ensures KeepsCustom(tables[k], tables[m], id) {
      assert ss[k] in ss && Executes(ss[k], tables[k], tables[k + 1]);
      StatementKeepsCustomRow(ss[k], tables[k], tables[m], id);
    }
    KeptThroughout(tables, i, j, id);
  }

  // ---------- the limits of the check ----------

  function Plain(value: string): Lexeme { Lexeme(value, PlainToken) }

  const FLAG: Tokens := [Lexeme("IsFrameworkDefault", PlainToken), EQUAL, Lexeme("1", PlainToken)]

  /** Recognized by length and first character alone. */
  predicate OrdinaryWord(t: Lexeme) {
    && t.kind == PlainToken && t.value != []
    && (|t.value| >= 4
        || (|t.value| == 1 && t.value[0] != '(' && t.value[0] != ')' && t.value[0] != ';')
        || (|t.value| == 3 && t.value[0] == 'E'))
  }

  lemma OrdinaryWordIsNoSyntax(t: Lexeme)
    requires OrdinaryWord(t)
    ensures !Opens(t) && !Closes(t) && !Connective(t) && !IsEnd(t)
  {
    assert Keyword(t)[0] == Upper(t.value[0]);
  }

  predicate OrdinaryWords(ts: Tokens) {
    forall i | 0 <= i < |ts| :: OrdinaryWord(ts[i])
  }

  lemma {:induction false} OrdinaryWordsAreSimple(ts: Tokens)
    requires OrdinaryWords(ts)
    ensures Simple(ts, 0)
  {
    if ts != [] {
      OrdinaryWordIsNoSyntax(ts[0]);
      OrdinaryWordsAreSimple(ts[1..]);
    }
  }

  lemma OrdinaryWordsHaveNoEnd(ts: Tokens)
    requires OrdinaryWords(ts)
    ensures NoEnd(ts)
  {
    forall i | 0 <= i < |ts| ensures !IsEnd(ts[i]) {
      OrdinaryWordIsNoSyntax(ts[i]);
    }
  }

  lemma {:induction false} SimpleJoin(a: Tokens, b: Tokens, d: nat)
    requires Simple(a, d) && Simple(b, 0)
    ensures Simple(a + b, d)
  {
    if a == [] {
      assert a + b == b;
    } else {
      assert (a + b)[1..] == a[1..] + b;
      SimpleJoin(a[1..], b, if Opens(a[0]) then d + 1 else if Closes(a[0]) then d - 1 else d);
    }
  }

  lemma AttachAfterAnd(a: Tokens, qs: seq<Tokens>)
    ensures Attach(a, AfterAnd(Some(qs))) == Some([a] + qs)
  {
    assert ([[]] + qs)[1..] == qs && a + [] == a;
  }

  lemma CutAnd(a: Tokens, rest: Tokens, qs: seq<Tokens>)
    requires Simple(a, 0) && Cut(rest, 0) == Some(qs)
    ensures Cut(a + [AND] + rest, 0) == Some([a] + qs)
  {
    var after := [AND] + rest;
    assert after[1..] == rest && a + after == a + [AND] + rest;
    CutAtAnd(after);
    CutSkips(a, after, 0);
    AttachAfterAnd(a, qs);
  }

  /** The flag comparison as one part of a condition. */
  predicate FlagPart(flag: Tokens) {
    OwnedForm(flag, None) && Unwrap(flag) == Ok(flag) && Simple(flag, 0) && NoEnd(flag)
  }

  lemma FlagIsOrdinary(flag: Tokens)
    requires flag == FLAG
    ensures OrdinaryWords(flag) && flag != [] && !Opens(flag[0])
  {
    assert |flag| == 3 && |flag[0].value| == 18 && |flag[1].value| == 1 && |flag[2].value| == 1;
    assert flag[1].value[0] == '=' && flag[2].value[0] == '1';
  }

  lemma FlagIsOwned(flag: Tokens)
    requires flag == FLAG
    ensures OwnedForm(flag, None)
  {
    assert |flag| == 3;
  }

  lemma FlagFacts(flag: Tokens)
    requires flag == FLAG
    ensures FlagPart(flag)
  {
    FlagIsOwned(flag);
    FlagIsOrdinary(flag);
    OrdinaryWordsAreSimple(flag);
    OrdinaryWordsHaveNoEnd(flag);
  }

  lemma OwnsOfParts(ts: Tokens, parts: seq<Tokens>, alias: Option<string>)
    requires ts != [] && !Opens(ts[0]) && Cut(ts, 0) == Some(parts)
    ensures Owns(ts, alias) == AnyOwned(parts, alias)
  {
  }

  lemma SecondOwned(a: Tokens, b: Tokens, rest: seq<Tokens>, alias: Option<string>)
    requires Unwrap(a) == Ok(a) && !OwnedForm(a, alias) && Unwrap(b) == Ok(b) && OwnedForm(b, alias)
    ensures AnyOwned([a] + ([b] + rest), alias) == Ok(true)
  {
    var parts := [a] + ([b] + rest);
    assert parts[0] == a && parts[1..] == [b] + rest && parts[1..][0] == b;
  }

  /** An AND, the flag comparison and another AND before the last piece suffice,
    * whatever precedes and follows. */
  lemma SecondPartOwned(a: Tokens, flag: Tokens, c: Tokens)
    requires Simple(a, 0) && a != [] && !Opens(a[0]) && !OwnedForm(a, None) && FlagPart(flag) && Cut(c, 0) == Some([c])
    ensures Owns(a + [AND] + (flag + [AND] + c), None) == Ok(true)
  {
    CutAnd(flag, c, [c]);
    CutAnd(a, flag + [AND] + c, [flag] + [c]);
    assert (a + [AND] + (flag + [AND] + c))[0] == a[0];
    OwnsOfParts(a + [AND] + (flag + [AND] + c), [a] + ([flag] + [c]), None);
    SecondOwned(a, flag, [c], None);
  }

  const ZERO: Tokens := [Lexeme("0", PlainToken)]
  const ONE: Tokens := [Lexeme("1", PlainToken)]

  /** CASE WHEN a AND IsFrameworkDefault = 1 AND b THEN 1 ELSE 0 END = 0. */
  function CaseOn(a: Tokens, flag: Tokens, b: Tokens): Pred {
    Case(And(And(Atom(a), Atom(flag)), Atom(b)), ONE, ZERO, ZERO)
  }

  lemma Regroup(h: Tokens, a: Tokens, x: Tokens, f: Tokens, b: Tokens, t: Tokens)
    ensures h + (a + x + f + x + b) + t == h + a + x + (f + x + (b + t))
  {
    assert a + x + f + x + b == a + x + (f + x + b);
    assert h + (a + x + (f + x + b)) == h + a + x + (f + x + b);
    assert h + a + x + (f + x + b) + t == h + a + x + ((f + x + b) + t);
    assert (f + x + b) + t == f + x + (b + t);
  }

  lemma CaseShown(a: Tokens, flag: Tokens, b: Tokens)
    ensures Show(CaseOn(a, flag, b))
         == [CASE, WHEN] + a + [AND] + (flag + [AND] + (b + CaseTail(ONE, ZERO, ZERO)))
  {
    var first := And(Atom(a), Atom(flag));
    assert Show(first) == a + [AND] + flag;
    assert Show(And(first, Atom(b))) == a + [AND] + flag + [AND] + b;
    Regroup([CASE, WHEN], a, [AND], flag, b, CaseTail(ONE, ZERO, ZERO));
  }

  lemma AttachOne(a: Tokens, x: Tokens)
    ensures Attach(a, Some([x])) == Some([a + x])
  {
    assert [a + x] + [x][1..] == [a + x];
  }

  lemma CutSimple(ts: Tokens)
    requires Simple(ts, 0)
    ensures Cut(ts, 0) == Some([ts])
  {
    CutSkips(ts, [], 0);
    AttachOne(ts, []);
    assert ts + [] == ts;
  }

  lemma CaseTailIsSimple(tail: Tokens)
    requires tail == CaseTail(ONE, ZERO, ZERO)
    ensures Simple(tail, 0)
  {
    assert tail == [THEN, Lexeme("1", PlainToken), ELSE, Lexeme("0", PlainToken), END, EQUAL, Lexeme("0", PlainToken)];
    OrdinaryWordsAreSimple(tail);
  }

  lemma CaseWordsAreSimple(head: Tokens, tail: Tokens)
    requires head == [CASE, WHEN] && tail == CaseTail(ONE, ZERO, ZERO)
    ensures Simple(head, 0) && Simple(tail, 0)
  {
    OrdinaryWordsAreSimple(head);
    CaseTailIsSimple(tail);
  }

  lemma CaseHeadUnowned(head: Tokens, a: Tokens)
    requires head == [CASE, WHEN] && Simple(head, 0) && Simple(a, 0)
    ensures Simple(head + a, 0) && !Opens((head + a)[0]) && !OwnedForm(head + a, None)
  {
    SimpleJoin(head, a, 0);
    assert (head + a)[0] == CASE && (head + a)[1] == WHEN;
  }

  lemma CaseIsAccepted(a: Tokens, flag: Tokens, b: Tokens, head: Tokens, tail: Tokens)
    requires Simple(a, 0) && Simple(b, 0) && FlagPart(flag)
    requires head == [CASE, WHEN] && tail == CaseTail(ONE, ZERO, ZERO)
    ensures Owns(head + a + [AND] + (flag + [AND] + (b + tail)), None) == Ok(true)
  {
    CaseWordsAreSimple(head, tail);
    CaseHeadUnowned(head, a);
    SimpleJoin(b, tail, 0);
    CutSimple(b + tail);
    SecondPartOwned(head + a, flag, b + tail);
  }

  lemma CaseIsTrue(a: Tokens, flag: Tokens, b: Tokens, reading: Reading)
    requires reading(flag) != True && reading(ZERO + [EQUAL] + ZERO) == True
    ensures Eval(CaseOn(a, flag, b), reading) == True
  {
    var first := And(Atom(a), Atom(flag));
    assert Eval(first, reading) == Both(reading(a), reading(flag));
    assert Eval(And(first, Atom(b)), reading) != True;
  }

  lemma CustomFlagIsUntrue(flag: Tokens, reading: Reading, row: Row)
    requires OwnedForm(flag, None) && ReadsFlag(reading, row, None) && Custom(row)
    ensures reading(flag) != True
  {
    OwnedReading(flag, None, reading, row);
  }

  /** A CASE outside parentheses hides ANDs that are no connectives: for any
    * comparisons `a` and `b` the check accepts the comparison of the CASE, which is
    * true for every custom row. */
  lemma CaseDefeatsTheCheck(a: Tokens, flag: Tokens, b: Tokens, reading: Reading, row: Row)
    requires Simple(a, 0) && Simple(b, 0) && FlagPart(flag)
    requires ReadsFlag(reading, row, None) && reading(ZERO + [EQUAL] + ZERO) == True
    ensures Owns(Show(CaseOn(a, flag, b)), None) == Ok(true)
    ensures Custom(row) ==> Eval(CaseOn(a, flag, b), reading) == True
  {
    if Custom(row) {
      CustomFlagIsUntrue(flag, reading, row);
      CaseIsTrue(a, flag, b, reading);
    }
    ShownCaseIsAccepted(a, flag, b);
  }

  lemma ShownCaseIsAccepted(a: Tokens, flag: Tokens, b: Tokens)
    requires Simple(a, 0) && Simple(b, 0) && FlagPart(flag)
    ensures Owns(Show(CaseOn(a, flag, b)), None) == Ok(true)
  {
    CaseIsAccepted(a, flag, b, [CASE, WHEN], CaseTail(ONE, ZERO, ZERO));
    CaseShown(a, flag, b);
  }

  lemma {:induction false} CutBelow(ts: Tokens, d: int)
    requires d < 0 && forall t | t in ts :: !Opens(t)
    ensures Cut(ts, d) == Some([ts])
  {
    if ts != [] {
      CutBelow(ts[1..], if Closes(ts[0]) then d - 1 else d);
      PushOne(ts[0], ts[1..]);
      assert [ts[0]] + ts[1..] == ts;
    }
  }

  /** What follows the parenthesis that closes a subquery is never cut. */
  lemma CutAfterSubquery(b: Tokens, rest: Tokens)
    requires Simple(b, 0) && forall t | t in rest :: !Opens(t)
    ensures Cut(b + ([CLOSE] + rest), 0) == Some([b + ([CLOSE] + rest)])
  {
    CutSkips(b, [CLOSE] + rest, 0);
    CutBelow(rest, -1);
    assert ([CLOSE] + rest)[1..] == rest;
    PushOne(CLOSE, rest);
    AttachOne(b, [CLOSE] + rest);
  }

  /** The tokens from the first WHERE of a statement on whose SET takes a value from
    * (SELECT ... WHERE a AND IsFrameworkDefault = 1 AND b), with its own condition. */
  function FromSubquery(a: Tokens, flag: Tokens, b: Tokens, condition: Tokens): Tokens {
    a + [AND] + (flag + [AND] + (b + ([CLOSE] + ([WHERE] + condition))))
  }

  lemma NoEndJoin(a: Tokens, b: Tokens)
    requires NoEnd(a) && NoEnd(b)
    ensures NoEnd(a + b)
  {
  }

  lemma SyntaxHasNoEnd()
    ensures NoEnd([AND]) && NoEnd([CLOSE]) && NoEnd([WHERE])
  {
    assert |AND.value| != |";"| && |WHERE.value| != |";"| && CLOSE.value[0] != ';';
  }

  lemma FromSubqueryHasNoEnd(a: Tokens, flag: Tokens, b: Tokens, rest: Tokens)
    requires NoEnd(a) && NoEnd(flag) && NoEnd(b) && NoEnd(rest)
    ensures NoEnd(a + [AND] + (flag + [AND] + (b + ([CLOSE] + rest))))
  {
    SyntaxHasNoEnd();
    NoEndJoin([CLOSE], rest);
    NoEndJoin(b, [CLOSE] + rest);
    NoEndJoin(flag, [AND]);
    NoEndJoin(flag + [AND], b + ([CLOSE] + rest));
    NoEndJoin(a, [AND]);
    NoEndJoin(a + [AND], flag + [AND] + (b + ([CLOSE] + rest)));
  }

  /** A WHERE in a subquery before the statement's own is taken for it: whatever the
    * statement's own condition is, the statement is admitted. */
  lemma SubqueryDefeatsTheCheck(before: Tokens, head: Tokens, a: Tokens, flag: Tokens, b: Tokens, condition: Tokens,
                                after: Tokens)
    requires NoEnd(head) && NoWhere(head) && EndsStatement(after)
    requires Simple(a, 0) && a != [] && !Opens(a[0]) && !OwnedForm(a, None) && Simple(b, 0) && FlagPart(flag)
    requires NoEnd(a) && NoEnd(b) && NoEnd(condition) && forall t | t in condition :: !Opens(t)
    ensures Owns(ConditionAt(before + head + [WHERE] + FromSubquery(a, flag, b, condition) + after, |before|), None)
         == Ok(true)
  {
    SyntaxHasNoEnd();
    WhereKeyword();
    var own := [WHERE] + condition;
    NoEndJoin([WHERE], condition);
    assert !Opens(WHERE) by { assert |WHERE.value| != |"("|; }
    CutAfterSubquery(b, own);
    SecondPartOwned(a, flag, b + ([CLOSE] + own));
    FromSubqueryHasNoEnd(a, flag, b, own);
    ConditionAfterFirst(before, head, FromSubquery(a, flag, b, condition), after);
  }

  /** A comparison of a one-letter column with 1. */
  function ColumnIsOne(column: char): Tokens {
    [Plain([column]), EQUAL, Plain("1")]
  }

  lemma ColumnIsAtom(ts: Tokens, column: char)
    requires ts == ColumnIsOne(column) && column !in {'(', ')', ';', '.'}
    ensures Simple(ts, 0) && NoEnd(ts) && AtomOk(ts)
    ensures !Opens(ts[0]) && !OwnedForm(ts, None) && !ComparesFlag(ts, None) && forall t | t in ts :: !Opens(t)
  {
    OrdinaryWordsAreSimple(ts);
    OrdinaryWordsHaveNoEnd(ts);
    assert |Ident(ts[0])| == 1;
  }

  /** From the target of UPDATE s.t SET a = (SELECT c FROM s.u to its WHERE. */
  function SelectingTarget(): Tokens {
    [Plain("s"), Plain("."), Plain("t"), Plain("SET"), Plain("a"), EQUAL, OPEN, Plain("SELECT"),
     Plain("c"), Plain("FROM"), Plain("s"), Plain("."), Plain("u")]
  }

  lemma NoWhereByLength(ts: Tokens)
    requires forall i | 0 <= i < |ts| :: ts[i].kind == PlainToken && |ts[i].value| != 5
    ensures NoWhere(ts)
  {
    forall t | t in ts ensures !IsWhere(t) {
      assert |UpperAll(t.value)| == |t.value| && |"WHERE"| == 5;
    }
  }

  lemma NoEndByFirst(ts: Tokens)
    requires forall i | 0 <= i < |ts| :: ts[i].value != [] && ts[i].value[0] != ';'
    ensures NoEnd(ts)
  {
  }

  lemma SelectingTargetFacts(start: Tokens)
    requires start == SelectingTarget()
    ensures NoEnd(start) && NoWhere(start)
  {
    NoWhereByLength(start);
    NoEndByFirst(start);
  }

  /** The part of a statement before its own WHERE that holds the subquery's. */
  function SubqueryHead(start: Tokens, a: Tokens, flag: Tokens, b: Tokens): Tokens {
    start + [WHERE] + (a + [AND] + (flag + [AND] + (b + [CLOSE])))
  }

  lemma SubqueryText(before: Tokens, start: Tokens, a: Tokens, flag: Tokens, b: Tokens, condition: Tokens,
                     after: Tokens)
    ensures before + SubqueryHead(start, a, flag, b) + [WHERE] + condition + after
         == before + start + [WHERE] + FromSubquery(a, flag, b, condition) + after
  {
    var own := [WHERE] + condition;
    CloseRegroups(a + [AND], flag + [AND], b, own);
    var inner := a + [AND] + (flag + [AND] + (b + [CLOSE]));
    assert before + (start + [WHERE] + inner) + [WHERE] + condition == before + start + [WHERE] + (inner + own);
  }

  lemma CloseRegroups(x: Tokens, y: Tokens, b: Tokens, own: Tokens)
    ensures x + (y + (b + [CLOSE])) + own == x + (y + (b + ([CLOSE] + own)))
  {
    assert b + [CLOSE] + own == b + ([CLOSE] + own);
    assert y + (b + [CLOSE]) + own == y + (b + [CLOSE] + own);
  }

  lemma SubqueryHeadHasNoEnd(start: Tokens, a: Tokens, flag: Tokens, b: Tokens)
    requires NoEnd(start) && NoEnd(a) && NoEnd(flag) && NoEnd(b)
    ensures NoEnd(SubqueryHead(start, a, flag, b))
  {
    SyntaxHasNoEnd();
    FromSubqueryHasNoEnd(a, flag, b, []);
    assert [CLOSE] + [] == [CLOSE];
    NoEndJoin(start, [WHERE]);
    NoEndJoin(start + [WHERE], a + [AND] + (flag + [AND] + (b + [CLOSE])));
  }

  /** Every target row has one combination, read by `reading`. */
  ghost predicate ReadBy(s: Statement, reading: Reading) {
    forall id :: s.joined(id) == [reading]
  }

  lemma SubqueryStatement(start: Tokens, a: Tokens, flag: Tokens, b: Tokens, own: Tokens, reading: Reading)
    returns (s: Statement)
    requires NoEnd(start) && NoWhere(start) && FlagPart(flag)
    requires Simple(a, 0) && NoEnd(a) && a != [] && !Opens(a[0]) && !OwnedForm(a, None) && Simple(b, 0) && NoEnd(b)
    requires AtomOk(own) && NoEnd(own) && forall t | t in own :: !Opens(t)
    ensures s.head == SubqueryHead(start, a, flag, b) && s.condition == Some(Atom(own)) && s.alias == None
    ensures Shaped(s) && Admitted(s) && ReadBy(s, reading)
  {
    s := Statement([Plain("UPDATE")], SubqueryHead(start, a, flag, b), Some(Atom(own)), [Plain(";")], None,
                   _ => [reading]);
    SubqueryText(s.before, start, a, flag, b, own, s.after);
    SubqueryDefeatsTheCheck(s.before, start, a, flag, b, own, s.after);
    SubqueryHeadHasNoEnd(start, a, flag, b);
  }

  /** A row whose flag is 0 and for which every other comparison is true. */
  function CustomReading(): Reading {
    (ts: Tokens) => if ComparesFlag(ts, None) then Compared(Some(0), Decimals.Number(ts[|ts| - 1].value)) else True
  }

  /** Executing a statement whose condition does not compare the flag may remove a
    * custom row. */
  lemma MayRemoveCustomRow(s: Statement, own: Tokens) returns (before: Table, after: Table)
    requires s.condition == Some(Atom(own)) && s.alias == None && !ComparesFlag(own, None) && ReadBy(s, CustomReading())
    ensures Executes(s, before, after) && 0 in before && Custom(before[0]) && 0 !in after
  {
    before, after := map[0 := Row(Some(0), 0)], map[];
    var reading := CustomReading();
    assert s.joined(0)[0] == reading && Eval(Atom(own), reading) == True;
    assert ReadsFlag(reading, before[0], None);
  }

  /** UPDATE s.t SET a = (SELECT c FROM s.u WHERE c = 1 AND IsFrameworkDefault = 1 AND
    * d = 1) WHERE e = 1 is admitted, yet executing it may remove a custom row. */
  lemma SubqueryTouchesCustomRow(start: Tokens, c: Tokens, flag: Tokens, d: Tokens, e: Tokens)
    returns (s: Statement, before: Table, after: Table)
    requires start == SelectingTarget() && c == ColumnIsOne('c') && flag == FLAG && d == ColumnIsOne('d')
    requires e == ColumnIsOne('e')
    ensures s.head == SubqueryHead(start, c, flag, d) && s.condition == Some(Atom(e))
    ensures Shaped(s) && Admitted(s) && Executes(s, before, after)
    ensures 0 in before && Custom(before[0]) && 0 !in after
  {
    ColumnIsAtom(c, 'c');
    ColumnIsAtom(d, 'd');
    ColumnIsAtom(e, 'e');
    FlagFacts(flag);
    SelectingTargetFacts(start);
    s := SubqueryStatement(start, c, flag, d, e, CustomReading());
    before, after := MayRemoveCustomRow(s, e);
  }

  // ---------- the loops ----------

  function MatchResult(start: nat, r: Option<nat>): Result<nat, BuildError> {
    match r
    case Some(m) => Ok(start + m)
    case None => Err(UnclosedParenthesis)
  }

  method Matching(ts: Tokens, start: nat) returns (r: Result<nat, BuildError>)
    requires start <= |ts|
    ensures r == MatchResult(start, Match(ts[start..], 0))
  {
    var depth := 0;
    ghost var goal, rest := MatchResult(start, Match(ts[start..], 0)), ts[start..];
    for i := start to |ts|
      invariant rest == ts[i..]
      invariant goal == MatchResult(i, Match(rest, depth))
    {
      assert rest[1..] == ts[i + 1..];
      MatchStep(rest, depth, i);
      if ts[i].value == "(" {
        depth := depth + 1;
      } else if ts[i].value == ")" {
        depth := depth - 1;
        if depth == 0 {
          return Ok(i);
        }
      }
      rest := rest[1..];
    }
    r := Err(UnclosedParenthesis);
  }

  lemma MatchStep(rest: Tokens, depth: int, i: nat)
    requires rest != []
    ensures var t := rest[0];
      MatchResult(i, Match(rest, depth)) ==
        if Closes(t) && depth == 1 then Ok(i)
        else MatchResult(i + 1, Match(rest[1..], DepthAfter(t, depth)))
  {
  }

  method UnwrapPart(part: Tokens) returns (r: Result<Tokens, BuildError>)
    ensures r == Unwrap(part)
  {
    var rest := part;
    while rest != [] && rest[0].value == "("
      invariant Unwrap(part) == Unwrap(rest)
      decreases |rest|
    {
      assert rest[0..] == rest;
      var m := Matching(rest, 0);
      if m.Err? {
        return Err(m.error);
      }
      if m.value != |rest| - 1 {
        break;
      }
      rest := rest[1..|rest| - 1];
    }
    r := Ok(rest);
  }

  function Before(parts: seq<Tokens>, r: Option<seq<Tokens>>): Option<seq<Tokens>> {
    match r
    case Some(ps) => Some(parts + ps)
    case None => None
  }

  lemma AttachPush(a: Tokens, t: Lexeme, r: Option<seq<Tokens>>)
    ensures Attach(a, Push(t, r)) == Attach(a + [t], r)
  {
    if r.Some? && r.value != [] {
      var ps := r.value;
      assert ([[t] + ps[0]] + ps[1..])[1..] == ps[1..];
      assert a + ([t] + ps[0]) == (a + [t]) + ps[0];
    } else if r.Some? {
      assert [[t]][1..] == [] && [a + [t]] + [] == [a + [t]];
    }
  }

  method CutParts(ts: Tokens) returns (r: Option<seq<Tokens>>)
    ensures r == Cut(ts, 0)
  {
    var parts: seq<Tokens>, begin, depth := [], 0, 0;
    ghost var piece, rest: Tokens := [], ts;
    AttachNothing(Cut(ts, 0));
    BeforeNothing(Cut(ts, 0));
    for i := 0 to |ts|
      invariant 0 <= begin <= i && piece == ts[begin..i] && rest == ts[i..]
      invariant Cut(ts, 0) == Before(parts, Attach(piece, Cut(rest, depth)))
    {
      var t := ts[i];
      assert rest[0] == t && rest[1..] == ts[i + 1..];
      if depth == 0 && t.value != "(" && t.value != ")" && Keyword(t) == "OR" {
        return None;
      }
      if depth == 0 && t.value != "(" && t.value != ")" && Keyword(t) == "AND" {
        NextPart(parts, piece, Cut(rest[1..], 0));
        parts := parts + [ts[begin..i]];
        begin := i + 1;
        piece := [];
      } else {
        depth := if t.value == "(" then depth + 1 else if t.value == ")" then depth - 1 else depth;
        AttachPush(piece, t, Cut(rest[1..], depth));
        assert ts[begin..i + 1] == piece + [t];
        piece := piece + [t];
      }
      rest := rest[1..];
    }
    AttachAllEmpty([piece]);
    assert ts[begin..] == piece;
    r := Some(parts + [ts[begin..]]);
  }

  lemma BeforeNothing(r: Option<seq<Tokens>>)
    ensures Before([], r) == r
  {
    if r.Some? { assert [] + r.value == r.value; }
  }

  lemma NextPart(parts: seq<Tokens>, piece: Tokens, r: Option<seq<Tokens>>)
    requires r.Some? ==> r.value != []
    ensures Before(parts, Attach(piece, AfterAnd(r))) == Before(parts + [piece], Attach([], r))
  {
    AttachNothing(r);
    if r.Some? {
      assert piece + [] == piece && ([[]] + r.value)[1..] == r.value;
      assert parts + ([piece] + r.value) == parts + [piece] + r.value;
    }
  }

  method OwnsPredicate(predicate_: Tokens, alias: Option<string>) returns (r: Result<bool, BuildError>)
    ensures r == Owns(predicate_, alias)
  {
    var inner := UnwrapPart(predicate_);
    if inner.Err? {
      return Err(inner.error);
    }
    var parts := CutParts(inner.value);
    if parts.None? {
      return Ok(false);
    }
    var rest := parts.value;
    while rest != []
      invariant Owns(predicate_, alias) == AnyOwned(rest, alias)
    {
      var part := UnwrapPart(rest[0]);
      if part.Err? {
        return Err(part.error);
      }
      if OwnedForm(part.value, alias) {
        return Ok(true);
      }
      rest := rest[1..];
    }
    r := Ok(false);
  }
}
