/** Driving a lexical step function over a text: the token list, its positions
  * and how both behave when the text is cut.  Nothing here depends on which
  * tokens the step function recognizes. */
module Scanning {
  import opened Common
  import opened TextOps

  datatype Kind = StringToken | IdentifierToken | PlainToken

  datatype Token = Token(value: string, start: nat, end: nat, kind: Kind)

  datatype Lexeme = Lexeme(value: string, kind: Kind)

  datatype LexError = UnclosedComment | UnclosedString | UnclosedIdentifier | DoubleQuoted

  datatype Step = Done | Skip(n: nat) | Emit(n: nat, kind: Kind) | Fail(error: LexError) {
    predicate Moves() {
      Skip? || Emit?
    }
  }

  ghost predicate StepFits(s: string, step: Step) {
    (step.Done? <==> s == []) && (step.Moves() ==> 1 <= step.n <= |s|)
  }

  type Stepper = f: string -> Step | forall s :: StepFits(s, f(s))
    ghost witness s => if s == [] then Done else Skip(|s|)

  /** The tokens of a text without their positions. */
  function Lex(f: Stepper, s: string): Result<seq<Lexeme>, LexError>
    decreases |s|
  {
    var step := f(s);
    assert StepFits(s, step);
    match step
    case Done => Ok([])
    case Skip(n) => Lex(f, s[n..])
    case Emit(n, kind) => Prepend([Lexeme(s[..n], kind)], Lex(f, s[n..]))
    case Fail(e) => Err(e)
  }

  function Prepend<T>(first: seq<T>, rest: Result<seq<T>, LexError>): Result<seq<T>, LexError> {
    match rest
    case Ok(ts) => Ok(first + ts)
    case Err(e) => Err(e)
  }

  lemma PrependNothing<T>(r: Result<seq<T>, LexError>)
    ensures Prepend([], r) == r
  {
    if r.Ok? {
      assert [] + r.value == r.value;
    }
  }

  lemma PrependPrepend<T>(a: seq<T>, b: seq<T>, r: Result<seq<T>, LexError>)
    ensures Prepend(a, Prepend(b, r)) == Prepend(a + b, r)
  {
    if r.Ok? {
      assert a + (b + r.value) == a + b + r.value;
    }
  }

  /** The tokens of `sql` from position `i` on. */
  function Scan(f: Stepper, sql: string, i: nat): Result<seq<Token>, LexError>
    requires i <= |sql|
    decreases |sql| - i
  {
    var step := f(sql[i..]);
    assert StepFits(sql[i..], step);
    match step
    case Done => Ok([])
    case Skip(n) => Scan(f, sql, i + n)
    case Emit(n, kind) => Prepend([Token(sql[i..i + n], i, i + n, kind)], Scan(f, sql, i + n))
    case Fail(e) => Err(e)
  }

  /** One round of a loop that collects the tokens in `result`. */
  lemma ScanStep(f: Stepper, sql: string, i: nat, result: seq<Token>, step: Step)
    requires i <= |sql| && step == f(sql[i..])
    ensures step.Moves() ==> 1 <= step.n && i + step.n <= |sql|
    ensures step.Skip? ==> Prepend(result, Scan(f, sql, i)) == Prepend(result, Scan(f, sql, i + step.n))
    ensures step.Emit? ==> var token := Token(sql[i..i + step.n], i, i + step.n, step.kind);
      Prepend(result, Scan(f, sql, i)) == Prepend(result + [token], Scan(f, sql, i + step.n))
    ensures step.Fail? ==> Prepend(result, Scan(f, sql, i)) == Err(step.error)
    ensures step.Done? <==> i == |sql|
    ensures step.Done? ==> Prepend(result, Scan(f, sql, i)) == Ok(result)
  {
    assert StepFits(sql[i..], step);
    if step.Emit? {
      PrependPrepend(result, [Token(sql[i..i + step.n], i, i + step.n, step.kind)], Scan(f, sql, i + step.n));
    }
    assert result + [] == result;
  }

  lemma LexEmits(f: Stepper, piece: string, rest: string, kind: Kind)
    requires f(piece + rest) == Emit(|piece|, kind)
    ensures Lex(f, piece + rest) == Prepend([Lexeme(piece, kind)], Lex(f, rest))
  {
    assert StepFits(piece + rest, f(piece + rest));
    assert (piece + rest)[|piece|..] == rest && (piece + rest)[..|piece|] == piece;
  }

  lemma LexSkips(f: Stepper, piece: string, rest: string)
    requires f(piece + rest) == Skip(|piece|)
    ensures Lex(f, piece + rest) == Lex(f, rest)
  {
    assert StepFits(piece + rest, f(piece + rest));
    assert (piece + rest)[|piece|..] == rest;
  }

  lemma WholeToken(f: Stepper, text: string, kind: Kind)
    requires f(text) == Emit(|text|, kind)
    ensures Scan(f, text, 0) == Ok([Token(text, 0, |text|, kind)])
  {
    assert StepFits(text, f(text)) && StepFits([], f([]));
    assert text[0..] == text && text[|text|..] == [] && text[0..|text|] == text;
    var token := Token(text, 0, |text|, kind);
    assert Scan(f, text, |text|) == Ok([]) && [token] + [] == [token];
  }

  function Values(ts: seq<Token>): (vs: seq<Lexeme>)
    ensures |vs| == |ts| && forall i | 0 <= i < |ts| :: vs[i] == Lexeme(ts[i].value, ts[i].kind)
  {
    seq(|ts|, i requires 0 <= i < |ts| => Lexeme(ts[i].value, ts[i].kind))
  }

  /** Positions aside, scanning from `i` is lexing the rest of the text. */
  lemma {:induction false} ScanIsLex(f: Stepper, sql: string, i: nat)
    requires i <= |sql|
    ensures Scan(f, sql, i).Ok? <==> Lex(f, sql[i..]).Ok?
    ensures Scan(f, sql, i).Ok? ==> Lex(f, sql[i..]) == Ok(Values(Scan(f, sql, i).value))
    ensures Scan(f, sql, i).Err? ==> Lex(f, sql[i..]) == Err(Scan(f, sql, i).error)
    decreases |sql| - i
  {
    var step := f(sql[i..]);
    assert StepFits(sql[i..], step);
    if step.Moves() {
      ScanIsLex(f, sql, i + step.n);
      assert sql[i..][step.n..] == sql[i + step.n..];
      assert sql[i..][..step.n] == sql[i..i + step.n];
      if step.Emit? && Scan(f, sql, i).Ok? {
        var rest := Scan(f, sql, i + step.n).value;
        assert Values(Scan(f, sql, i).value) == [Lexeme(sql[i..i + step.n], step.kind)] + Values(rest);
      }
    }
  }

  // ---------- positions ----------

  /** Lexing from `i` reaches position `q` at a step boundary. */
  ghost predicate Reach(f: Stepper, sql: string, i: nat, q: nat)
    requires i <= |sql| && q <= |sql|
    decreases |sql| - i
  {
    || i == q
    || var step := f(sql[i..]);
       step.Moves() && i + step.n <= q && Reach(f, sql, i + step.n, q)
  }

  /** Only whitespace and comments lie between `i` and `q`. */
  ghost predicate Blank(f: Stepper, sql: string, i: nat, q: nat)
    requires i <= |sql| && q <= |sql|
    decreases |sql| - i
  {
    || i == q
    || var step := f(sql[i..]);
       step.Skip? && i + step.n <= q && Blank(f, sql, i + step.n, q)
  }

  lemma ScanEmits(f: Stepper, sql: string, i: nat, ts: seq<Token>)
    requires i <= |sql| && Scan(f, sql, i) == Ok(ts) && f(sql[i..]).Emit?
    ensures var step := f(sql[i..]);
      && i + step.n <= |sql| && ts != [] && ts[0] == Token(sql[i..i + step.n], i, i + step.n, step.kind)
      && Scan(f, sql, i + step.n) == Ok(ts[1..])
  {
    assert StepFits(sql[i..], f(sql[i..]));
  }

  lemma ScanMoves(f: Stepper, sql: string, i: nat, ts: seq<Token>)
    requires i <= |sql| && Scan(f, sql, i) == Ok(ts) && ts != []
    ensures f(sql[i..]).Moves() && 1 <= f(sql[i..]).n && i + f(sql[i..]).n <= |sql|
    ensures f(sql[i..]).Skip? ==> Scan(f, sql, i + f(sql[i..]).n) == Ok(ts)
  {
    assert StepFits(sql[i..], f(sql[i..]));
  }

  /** Token `k` of a scan starts at a boundary and carries its own text. */
  lemma {:induction false} ScanAt(f: Stepper, sql: string, i: nat, ts: seq<Token>, k: nat)
    requires i <= |sql| && Scan(f, sql, i) == Ok(ts) && k < |ts|
    ensures i <= ts[k].start < ts[k].end <= |sql| && ts[k].value == sql[ts[k].start..ts[k].end]
    ensures Reach(f, sql, i, ts[k].start) && Scan(f, sql, ts[k].start) == Ok(ts[k..])
    ensures f(sql[ts[k].start..]) == Emit(ts[k].end - ts[k].start, ts[k].kind)
    ensures Scan(f, sql, ts[k].end) == Ok(ts[k + 1..])
    decreases |sql| - i
  {
    ScanMoves(f, sql, i, ts);
    var j := i + f(sql[i..]).n;
    if f(sql[i..]).Skip? {
      ScanAt(f, sql, j, ts, k);
    } else {
      ScanEmits(f, sql, i, ts);
      if k > 0 {
        ScanAt(f, sql, j, ts[1..], k - 1);
        assert ts[1..][k - 1] == ts[k] && ts[1..][k - 1..] == ts[k..] && ts[1..][k..] == ts[k + 1..];
      }
    }
  }

  lemma {:induction false} FirstAfterBlank(f: Stepper, sql: string, i: nat, ts: seq<Token>)
    requires i <= |sql| && Scan(f, sql, i) == Ok(ts)
    ensures ts == [] ==> Blank(f, sql, i, |sql|)
    ensures ts != [] ==> i <= ts[0].start <= |sql| && Blank(f, sql, i, ts[0].start)
    decreases |sql| - i
  {
    var step := f(sql[i..]);
    assert StepFits(sql[i..], step);
    if step.Skip? {
      FirstAfterBlank(f, sql, i + step.n, ts);
    }
  }

  /** Token `k` lies in the text with its own value, and only whitespace and
    * comments follow it up to the next token or the end. */
  ghost predicate SpanOk(f: Stepper, sql: string, ts: seq<Token>, k: nat)
    requires k < |ts|
  {
    var next := if k + 1 < |ts| then ts[k + 1].start else |sql|;
    && ts[k].start < ts[k].end <= next <= |sql|
    && ts[k].value == sql[ts[k].start..ts[k].end]
    && Blank(f, sql, ts[k].end, next)
  }

  /** Token spans are ordered and disjoint, with only whitespace and comments
    * before, between and after them. */
  lemma TokenSpans(f: Stepper, sql: string, ts: seq<Token>)
    requires Scan(f, sql, 0) == Ok(ts)
    ensures forall k | 0 <= k < |ts| :: SpanOk(f, sql, ts, k)
    ensures if ts == [] then Blank(f, sql, 0, |sql|) else ts[0].start <= |sql| && Blank(f, sql, 0, ts[0].start)
  {
    forall k | 0 <= k < |ts| ensures SpanOk(f, sql, ts, k) {
      ScanAt(f, sql, 0, ts, k);
      FirstAfterBlank(f, sql, ts[k].end, ts[k + 1..]);
    }
    FirstAfterBlank(f, sql, 0, ts);
  }

  // ---------- cutting the text ----------

  /** The step does not look past its own end: it is the same on any prefix
    * that contains it. */
  predicate LocalAt(f: Stepper, s: string, m: nat) {
    m <= |s| && f(s).Moves() && f(s).n <= m ==> f(s[..m]) == f(s)
  }

  ghost predicate Local(f: Stepper) {
    forall s, m :: LocalAt(f, s, m)
  }

  /** The step at `i` is the same in the text that ends at a later boundary. */
  lemma StepCut(f: Stepper, sql: string, i: nat, q: nat)
    requires Local(f) && i < q <= |sql| && Reach(f, sql, i, q)
    ensures var step := f(sql[i..]);
      && step.Moves() && 1 <= step.n && i + step.n <= q && Reach(f, sql, i + step.n, q)
      && f(sql[i..i + step.n] + sql[i + step.n..q]) == step
      && sql[i..q] == sql[i..i + step.n] + sql[i + step.n..q]
  {
    var step := f(sql[i..]);
    assert StepFits(sql[i..], step);
    assert sql[i..][..q - i] == sql[i..q];
    assert LocalAt(f, sql[i..], q - i);
    assert sql[i..q] == sql[i..i + step.n] + sql[i + step.n..q];
  }

  lemma FirstValues(ts: seq<Token>, k: nat)
    requires k < |ts|
    ensures Values(ts[..k + 1]) == [Lexeme(ts[0].value, ts[0].kind)] + Values(ts[1..][..k])
    ensures ts[1..][k..] == ts[k + 1..]
  {
  }

  /** A scan continues unchanged from any boundary: the tokens before it are
    * those of the text up to it. */
  lemma {:induction false} ScanFromBoundary(f: Stepper, sql: string, i: nat, q: nat, ts: seq<Token>) returns (k: nat)
    requires Local(f) && i <= q <= |sql| && Reach(f, sql, i, q) && Scan(f, sql, i) == Ok(ts)
    ensures k <= |ts| && Scan(f, sql, q) == Ok(ts[k..])
    ensures Lex(f, sql[i..q]) == Ok(Values(ts[..k]))
    ensures forall j | 0 <= j < k :: ts[j].start < q
    decreases q - i
  {
    if i == q {
      k := 0;
      assert sql[i..q] == [] && StepFits([], f([]));
      assert Values(ts[..0]) == [];
    } else {
      StepCut(f, sql, i, q);
      var step := f(sql[i..]);
      var j := i + step.n;
      if step.Skip? {
        k := ScanFromBoundary(f, sql, j, q, ts);
        LexSkips(f, sql[i..j], sql[j..q]);
      } else {
        ScanEmits(f, sql, i, ts);
        k := ScanFromBoundary(f, sql, j, q, ts[1..]);
        LexEmits(f, sql[i..j], sql[j..q], step.kind);
        FirstValues(ts, k);
        k := k + 1;
      }
    }
  }

  // ---------- white space at the ends ----------

  /** White space is skipped one character at a time. */
  predicate SkipsSpaceAt(f: Stepper, s: string) {
    s != [] && IsSpace(s[0]) ==> f(s) == Skip(1)
  }

  ghost predicate SkipsSpace(f: Stepper) {
    forall s :: SkipsSpaceAt(f, s)
  }

  /** A step ending in white space is white space or an unfinished or finished
    * line comment. */
  predicate SpaceTailAt(f: Stepper, s: string) {
    f(s).Moves() && 0 < f(s).n <= |s| && IsSpace(s[f(s).n - 1]) ==>
      f(s).Skip? && (f(s).n == 1 || (StartsWith(s, "--") && forall j | 0 <= j < f(s).n - 1 :: s[j] != '\n'))
  }

  ghost predicate SpaceTails(f: Stepper) {
    forall s :: SpaceTailAt(f, s)
  }

  /** Line comments run to the line feed. */
  predicate SkipsLineAt(f: Stepper, s: string) {
    StartsWith(s, "--") ==> f(s) == Skip(LineLength(s))
  }

  ghost predicate SkipsLines(f: Stepper) {
    forall s :: SkipsLineAt(f, s)
  }

  predicate FailsWithoutTailAt(f: Stepper, s: string) {
    s != [] && f(s).Fail? && IsSpace(s[|s| - 1]) ==> f(s[..|s| - 1]) == f(s)
  }

  ghost predicate FailsWithoutTail(f: Stepper) {
    forall s :: FailsWithoutTailAt(f, s)
  }

  lemma LineWithoutFeed(s: string)
    requires forall j | 0 <= j < |s| :: s[j] != '\n'
    ensures LineLength(s) == |s|
  {
  }

  /** A last white-space character changes nothing. */
  lemma {:induction false} LexWithoutLastSpace(f: Stepper, s: string)
    requires Local(f) && SkipsSpace(f) && SpaceTails(f) && SkipsLines(f) && FailsWithoutTail(f)
    requires s != [] && IsSpace(s[|s| - 1])
    ensures Lex(f, s[..|s| - 1]) == Lex(f, s)
    decreases |s|
  {
    var m, step := |s| - 1, f(s);
    assert StepFits(s, step);
    assert LocalAt(f, s, m) && SpaceTailAt(f, s) && SkipsSpaceAt(f, s) && FailsWithoutTailAt(f, s);
    assert SkipsLineAt(f, s[..m]);
    if step.Moves() {
      if step.n <= m {
        assert f(s[..m]) == step;
        LexWithoutLastSpace(f, s[step.n..]);
        assert s[step.n..][..|s[step.n..]| - 1] == s[..m][step.n..];
        assert s[..m][..step.n] == s[..step.n];
      } else {
        assert s[step.n..] == [] && StepFits([], f([]));
        if step.n > 1 {
          LineWithoutFeed(s[..m]);
          assert StartsWith(s[..m], "--") by { assert s[..m][..2] == s[..2]; }
          assert s[..m][m..] == [];
        } else {
          assert s[..m] == [];
        }
      }
    }
  }

  // ---------- line starts ----------

  /** Cut right after a line feed inside it, a step fails. */
  predicate FailsInsideLineAt(f: Stepper, s: string, m: nat) {
    m <= |s| && f(s).Moves() && 0 < m < f(s).n && s[m - 1] == '\n' ==> f(s[..m]).Fail?
  }

  ghost predicate FailsInsideLines(f: Stepper) {
    forall s, m :: FailsInsideLineAt(f, s, m)
  }

  predicate AtLineStart(sql: string, b: nat) {
    b == 0 || (b <= |sql| && sql[b - 1] == '\n')
  }

  predicate AllSpace(sql: string, b: nat, t: nat) {
    forall j | b <= j < t && j < |sql| :: IsSpace(sql[j])
  }

  /** A line start followed only by white space is a boundary. */
  lemma {:induction false} LineStartReached(f: Stepper, sql: string, p: nat, b: nat, t: nat)
    requires SpaceTails(f) && p <= b <= t <= |sql| && Reach(f, sql, p, t)
    requires AtLineStart(sql, b) && AllSpace(sql, b, t)
    ensures Reach(f, sql, p, b)
    decreases b - p
  {
    if p < b {
      var s := sql[p..];
      var step := f(s);
      assert StepFits(s, step) && SpaceTailAt(f, s);
      if p + step.n <= b {
        LineStartReached(f, sql, p + step.n, b, t);
      }
    }
  }

  /** A line start that is no boundary lies inside a token or block comment, and
    * the text up to it is unclosed. */
  lemma {:induction false} UnreachedLineStartFails(f: Stepper, sql: string, p: nat, b: nat, t: nat)
    requires Local(f) && FailsInsideLines(f)
    requires p <= b <= t <= |sql| && Reach(f, sql, p, t) && !Reach(f, sql, p, b) && AtLineStart(sql, b)
    ensures Lex(f, sql[p..b]).Err?
    decreases b - p
  {
    var s := sql[p..];
    var step := f(s);
    assert StepFits(s, step);
    var m := b - p;
    assert s[..m] == sql[p..b] && LocalAt(f, s, m) && FailsInsideLineAt(f, s, m);
    if step.n <= m {
      assert f(s[..m]) == step;
      UnreachedLineStartFails(f, sql, p + step.n, b, t);
      assert sql[p..b][step.n..] == sql[p + step.n..b];
    } else {
      assert s[m - 1] == sql[b - 1];
      assert f(s[..m]).Fail?;
    }
  }

  lemma {:induction false} SpaceSkipped(f: Stepper, sql: string, b: nat, t: nat)
    requires SkipsSpace(f) && b <= t <= |sql| && AllSpace(sql, b, t)
    ensures Reach(f, sql, b, t) && Scan(f, sql, b) == Scan(f, sql, t)
    decreases t - b
  {
    if b < t {
      assert sql[b..][0] == sql[b] && SkipsSpaceAt(f, sql[b..]);
      SpaceSkipped(f, sql, b + 1, t);
    }
  }

  lemma CommentSkipped(f: Stepper, sql: string, c: nat, e: nat)
    requires SkipsSpace(f) && SkipsLines(f) && c < e <= |sql| && StartsWith(sql[c..e], "--")
    requires forall j | c <= j < e :: sql[j] != '\n'
    requires e == |sql| || sql[e] == '\n'
    ensures Scan(f, sql, c) == Scan(f, sql, e)
  {
    var s := sql[c..];
    assert StartsWith(s, "--") by { assert s[..2] == sql[c..e][..2]; }
    assert SkipsLineAt(f, s);
    if e < |sql| {
      LineFeedAt(s, e - c);
      assert f(s) == Skip(e - c + 1);
      assert SkipsSpaceAt(f, sql[e..]);
      assert sql[e..][0] == '\n' && f(sql[e..]) == Skip(1);
    } else {
      LineWithoutFeed(s);
      assert f(s) == Skip(|s|);
    }
  }

  /** A line rest of white space and perhaps a line comment has no tokens. */
  lemma LineTailSkipped(f: Stepper, sql: string, i: nat, c: nat, e: nat)
    requires SkipsSpace(f) && SkipsLines(f) && i <= c <= e <= |sql| && AllSpace(sql, i, c)
    requires c == e || StartsWith(sql[c..e], "--")
    requires forall j | c <= j < e :: sql[j] != '\n'
    requires e == |sql| || sql[e] == '\n'
    ensures Scan(f, sql, i) == Scan(f, sql, e)
  {
    SpaceSkipped(f, sql, i, c);
    if c < e {
      CommentSkipped(f, sql, c, e);
    }
  }

  lemma {:induction false} LineFeedAt(s: string, k: nat)
    requires k < |s| && s[k] == '\n' && forall j | 0 <= j < k :: s[j] != '\n'
    ensures LineLength(s) == k + 1
  {
    if k > 0 {
      LineFeedAt(s[1..], k - 1);
    }
  }
}
