/** Splitting a script at GO lines. */
module Batches {
  import opened Common
  import opened TextOps
  import opened Scanning
  import opened Lexer

  datatype SplitError = Lexical(error: LexError) | UnsupportedSeparator

  // ---------- lines ----------

  /** Start of the line that contains position `i`. */
  function LineStart(sql: string, i: nat): (b: nat)
    requires i <= |sql|
    ensures b <= i && (b > 0 ==> sql[b - 1] == '\n')
    ensures forall j | b <= j < i :: sql[j] != '\n'
  {
    if i == 0 || sql[i - 1] == '\n' then i else LineStart(sql, i - 1)
  }

  /** Position of the first line feed from `i` on, or the end of the text. */
  function LineEnd(sql: string, i: nat): (e: nat)
    requires i <= |sql|
    ensures i <= e <= |sql| && (e < |sql| ==> sql[e] == '\n')
    ensures forall j | i <= j < e :: sql[j] != '\n'
    decreases |sql| - i
  {
    if i == |sql| || sql[i] == '\n' then i else LineEnd(sql, i + 1)
  }

  function SpaceRun(s: string): (n: nat)
    ensures n <= |s| && (forall i | 0 <= i < n :: IsSpace(s[i])) && (n < |s| ==> !IsSpace(s[n]))
  {
    if s != [] && IsSpace(s[0]) then 1 + SpaceRun(s[1..]) else 0
  }

  predicate IsGo(s: string) {
    |s| == 2 && Upper(s[0]) == 'G' && Upper(s[1]) == 'O'
  }

  /** The line begins, after whitespace, with the two letters GO. */
  predicate GoFirst(line: string) {
    var a := SpaceRun(line);
    a + 2 <= |line| && IsGo(line[a..a + 2])
  }

  /** Whitespace, GO, whitespace, and nothing else but a line comment. */
  predicate SeparatorLine(line: string) {
    GoFirst(line) &&
    var tail := line[SpaceRun(line) + 2..];
    var rest := tail[SpaceRun(tail)..];
    rest == [] || StartsWith(rest, "--")
  }

  predicate IsWordChar(c: char) {
    IsLetter(c) || IsDigit(c) || c == '_' || c as int >= 128
  }

  /** GO as a whole word begins the line. */
  predicate BadSeparatorLine(line: string) {
    GoFirst(line) &&
    var a := SpaceRun(line) + 2;
    a == |line| || !IsWordChar(line[a])
  }

  function LineOf(sql: string, t: Token): string
    requires t.start <= t.end <= |sql|
  {
    sql[LineStart(sql, t.start)..LineEnd(sql, t.end)]
  }

  predicate GoToken(t: Token) {
    t.kind == PlainToken && IsGo(t.value)
  }

  predicate TokensFit(sql: string, ts: seq<Token>) {
    forall k | 0 <= k < |ts| :: ts[k].start <= ts[k].end <= |sql|
  }

  /** A GO token alone, up to a comment, on its line. */
  predicate Separates(sql: string, t: Token) {
    t.start <= t.end <= |sql| && GoToken(t) && SeparatorLine(LineOf(sql, t))
  }

  /** A GO token on a line that begins with GO but goes on otherwise. */
  predicate Unsupported(sql: string, t: Token) {
    t.start <= t.end <= |sql| && GoToken(t) && !SeparatorLine(LineOf(sql, t)) && BadSeparatorLine(LineOf(sql, t))
  }

  type Mark = Token -> bool

  function SeparatorOf(sql: string): Mark {
    t => Separates(sql, t)
  }

  function UnsupportedOf(sql: string): Mark {
    t => Unsupported(sql, t)
  }

  /** Only white space precedes the token on its line. */
  predicate OwnLine(sql: string, t: Token)
    requires t.start <= |sql|
  {
    AllSpace(sql, LineStart(sql, t.start), t.start)
  }

  // ---------- the split ----------

  /** The separator tokens in order, unless an unsupported one comes up. */
  function Separators(sep: Mark, bad: Mark, ts: seq<Token>): (r: Result<seq<Token>, SplitError>)
    ensures r.Ok? ==> forall i | 0 <= i < |r.value| :: r.value[i] in ts
  {
    if ts == [] then Ok([])
    else if sep(ts[0]) then
      match Separators(sep, bad, ts[1..])
      case Ok(rest) => Ok([ts[0]] + rest)
      case Err(e) => Err(e)
    else if bad(ts[0]) then Err(UnsupportedSeparator)
    else Separators(sep, bad, ts[1..])
  }

  function StripLeft(s: string): string {
    if s != [] && IsSpace(s[0]) then StripLeft(s[1..]) else s
  }

  function StripRight(s: string): string {
    if s != [] && IsSpace(s[|s| - 1]) then StripRight(s[..|s| - 1]) else s
  }

  function Strip(s: string): string {
    StripRight(StripLeft(s))
  }

  /** Python's slice: empty when the bounds are crossed. */
  function Slice(s: string, a: nat, b: nat): string {
    if a <= b <= |s| then s[a..b] else []
  }

  /** The part as a batch list: one entry, or none when it has no tokens. */
  function Batch(f: Stepper, part: string): Result<seq<string>, SplitError> {
    match Lex(f, Strip(part))
    case Ok(ts) => Ok(if ts == [] then [] else [Strip(part)])
    case Err(e) => Err(Lexical(e))
  }

  function Join(first: Result<seq<string>, SplitError>, rest: Result<seq<string>, SplitError>)
    : Result<seq<string>, SplitError>
  {
    if first.Err? then first
    else if rest.Err? then rest
    else Ok(first.value + rest.value)
  }

  /** The batches of the text from `start` on, cut at the lines of `seps`. */
  function Parts(f: Stepper, sql: string, start: nat, seps: seq<Token>): Result<seq<string>, SplitError>
    requires start <= |sql| && TokensFit(sql, seps)
    decreases |seps|
  {
    if seps == [] then Batch(f, sql[start..])
    else Join(Batch(f, Slice(sql, start, LineStart(sql, seps[0].start))),
              Parts(f, sql, LineEnd(sql, seps[0].end), seps[1..]))
  }

  lemma ScanFits(f: Stepper, sql: string)
    ensures Scan(f, sql, 0).Ok? ==> TokensFit(sql, Scan(f, sql, 0).value)
  {
    if Scan(f, sql, 0).Ok? {
      var ts := Scan(f, sql, 0).value;
      forall k | 0 <= k < |ts| ensures ts[k].start <= ts[k].end <= |sql| {
        ScanAt(f, sql, 0, ts, k);
      }
    }
  }

  function Split(f: Stepper, sql: string): Result<seq<string>, SplitError> {
    match Scan(f, sql, 0)
    case Err(e) => Err(Lexical(e))
    case Ok(ts) =>
      ScanFits(f, sql);
      match Separators(SeparatorOf(sql), UnsupportedOf(sql), ts)
      case Err(e) => Err(e)
      case Ok(seps) => Parts(f, sql, 0, seps)
  }

  // ---------- what the proof needs of the tokenizer ----------

  /** GO followed by no word character is a plain token of its own. */
  predicate EmitsGoAt(f: Stepper, s: string) {
    |s| >= 2 && IsGo(s[..2]) && (|s| == 2 || !IsWordPart(s[2])) ==> f(s) == Emit(2, PlainToken)
  }

  ghost predicate EmitsGo(f: Stepper) {
    forall s :: EmitsGoAt(f, s)
  }

  ghost predicate Splittable(f: Stepper) {
    && Local(f) && SkipsSpace(f) && SpaceTails(f) && SkipsLines(f)
    && FailsWithoutTail(f) && FailsInsideLines(f) && EmitsGo(f)
  }

  lemma GoStep(s: string)
    requires |s| >= 2 && IsGo(s[..2]) && (|s| == 2 || !IsWordPart(s[2]))
    ensures LexStep(s) == Emit(2, PlainToken)
  {
    assert s[1..][0] == s[1];
    assert WordRun(s[1..]) == 1 by {
      assert s[1..][1..] == s[2..];
    }
  }

  lemma LexStepSplittable()
    ensures Splittable(LexStep)
  {
    LexStepIsLocal();
    LexStepAtSpace();
    LexStepSpaceTails();
    LexStepFails();
    forall s ensures EmitsGoAt(LexStep, s) {
      if |s| >= 2 && IsGo(s[..2]) && (|s| == 2 || !IsWordPart(s[2])) {
        GoStep(s);
      }
    }
  }

  // ---------- stripping ----------

  lemma {:induction false} StripLeftLex(f: Stepper, s: string)
    requires SkipsSpace(f)
    ensures Lex(f, StripLeft(s)) == Lex(f, s)
  {
    if s != [] && IsSpace(s[0]) {
      assert SkipsSpaceAt(f, s);
      StripLeftLex(f, s[1..]);
    }
  }

  lemma {:induction false} StripRightLex(f: Stepper, s: string)
    requires Local(f) && SkipsSpace(f) && SpaceTails(f) && SkipsLines(f) && FailsWithoutTail(f)
    ensures Lex(f, StripRight(s)) == Lex(f, s)
  {
    if s != [] && IsSpace(s[|s| - 1]) {
      LexWithoutLastSpace(f, s);
      StripRightLex(f, s[..|s| - 1]);
    }
  }

  lemma StripLex(f: Stepper, s: string)
    requires Splittable(f)
    ensures Lex(f, Strip(s)) == Lex(f, s)
  {
    StripLeftLex(f, s);
    StripRightLex(f, StripLeft(s));
  }

  // ---------- one separator ----------

  /** The structure of a separator line around its first GO. */
  lemma SeparatorShape(line: string) returns (a: nat, c: nat)
    requires SeparatorLine(line)
    ensures a + 2 <= c <= |line| && IsGo(line[a..a + 2])
    ensures forall j | 0 <= j < a || a + 2 <= j < c :: IsSpace(line[j])
    ensures c == |line| || StartsWith(line[c..], "--")
  {
    a := SpaceRun(line);
    var tail := line[a + 2..];
    c := a + 2 + SpaceRun(tail);
    forall j | a + 2 <= j < c ensures IsSpace(line[j]) {
      assert line[j] == tail[j - a - 2];
    }
    assert tail[SpaceRun(tail)..] == line[c..];
  }

  /** Scanning from the first GO of a separator line: that GO, then the tokens
    * after the line. */
  lemma ScanSeparator(f: Stepper, sql: string, a: nat, c: nat, e: nat)
    requires Splittable(f) && a + 2 <= c <= e <= |sql| && IsGo(sql[a..a + 2]) && AllSpace(sql, a + 2, c)
    requires c == e || StartsWith(sql[c..e], "--")
    requires forall j | a <= j < e :: sql[j] != '\n'
    requires e == |sql| || sql[e] == '\n'
    ensures Scan(f, sql, a) == Prepend([Token(sql[a..a + 2], a, a + 2, PlainToken)], Scan(f, sql, e))
  {
    var s := sql[a..];
    assert s[..2] == sql[a..a + 2];
    if a + 2 < |sql| {
      assert s[2] == sql[a + 2];
      if a + 2 == c && c < e {
        assert sql[c..e][..2] == "--" && sql[a + 2] == sql[c..e][..2][0] == '-';
      } else if a + 2 < c {
        assert IsSpace(sql[a + 2]);
      }
      assert !IsWordPart(s[2]);
    }
    assert EmitsGoAt(f, s) && f(s) == Emit(2, PlainToken);
    LineTailSkipped(f, sql, a + 2, c, e);
  }

  /** A part begins at the start of the text or at the line feed that ends a
    * separator line. */
  predicate PartStart(sql: string, p: nat) {
    p == 0 || p == |sql| || (p < |sql| && sql[p] == '\n')
  }

  /** Token `k` as the separator of the line `b..e`, whose first GO is at `a`
    * and whose blank stretch after it ends at `c`. */
  ghost predicate OnLine(sql: string, t: Token, b: nat, a: nat, c: nat, e: nat) {
    && b <= a && a + 2 <= c <= e <= |sql| && b <= t.start && t.end == t.start + 2 <= e
    && (forall j | b <= j < e :: sql[j] != '\n')
    && AtLineStart(sql, b) && (e == |sql| || sql[e] == '\n')
    && AllSpace(sql, b, a) && IsGo(sql[a..a + 2]) && AllSpace(sql, a + 2, c)
    && (c == e || StartsWith(sql[c..e], "--"))
    && !IsSpace(sql[t.start])
    && b == LineStart(sql, t.start) && e == LineEnd(sql, t.end)
  }

  lemma LineStartsAfterPart(sql: string, p: nat, i: nat)
    requires PartStart(sql, p) && p <= i < |sql| && sql[i] != '\n'
    ensures p <= LineStart(sql, i)
  {
  }

  lemma LineHasNoFeed(sql: string, i: nat, j: nat)
    requires i <= j <= |sql| && forall x | i <= x < j :: sql[x] != '\n'
    ensures forall x | LineStart(sql, i) <= x < LineEnd(sql, j) :: sql[x] != '\n'
  {
  }

  lemma GoIsNoSpace(s: string)
    requires IsGo(s)
    ensures !IsSpace(s[0]) && !IsSpace(s[1]) && s[0] != '\n' && s[1] != '\n'
  {
  }

  lemma SeparatorHasNoFeed(sql: string, t: Token)
    requires t.start + 2 == t.end <= |sql| && t.value == sql[t.start..t.end] && IsGo(t.value)
    ensures sql[t.start] != '\n' && sql[t.start + 1] != '\n'
  {
    GoIsNoSpace(t.value);
    assert sql[t.start] == t.value[0] && sql[t.start + 1] == t.value[1];
  }

  lemma SeparatorOnLine(sql: string, t: Token) returns (b: nat, a: nat, c: nat, e: nat)
    requires Separates(sql, t) && t.value == sql[t.start..t.end]
    ensures OnLine(sql, t, b, a, c, e) && sql[t.start] != '\n'
  {
    b, e := LineStart(sql, t.start), LineEnd(sql, t.end);
    SeparatorHasNoFeed(sql, t);
    LineHasNoFeed(sql, t.start, t.end);
    a, c := LineShape(sql, b, e);
  }

  lemma SliceOfSlice(s: string, b: nat, e: nat, i: nat, j: nat)
    requires b <= e <= |s| && i <= j <= e - b
    ensures s[b..e][i..j] == s[b + i..b + j]
  {
    forall x | 0 <= x < j - i ensures s[b..e][i..j][x] == s[b + i..b + j][x] {
      assert s[b..e][i..j][x] == s[b..e][i + x] == s[b + i + x];
    }
  }

  lemma LineShape(sql: string, b: nat, e: nat) returns (a: nat, c: nat)
    requires b <= e <= |sql| && SeparatorLine(sql[b..e])
    ensures b <= a && a + 2 <= c <= e && AllSpace(sql, b, a) && IsGo(sql[a..a + 2]) && AllSpace(sql, a + 2, c)
    ensures c == e || StartsWith(sql[c..e], "--")
  {
    var line := sql[b..e];
    var a', c' := SeparatorShape(line);
    a, c := b + a', b + c';
    forall j | b <= j < a || a + 2 <= j < c ensures IsSpace(sql[j]) {
      assert line[j - b] == sql[j];
    }
    SliceOfSlice(sql, b, e, a', a' + 2);
    SliceOfSlice(sql, b, e, c', e - b);
    assert line[c'..e - b] == line[c'..];
  }

  lemma OwnLineStart(sql: string, t: Token, b: nat, a: nat, c: nat, e: nat)
    requires OnLine(sql, t, b, a, c, e)
    ensures OwnLine(sql, t) <==> t.start == a
  {
    assert !IsSpace(sql[a..a + 2][0]) && sql[a..a + 2][0] == sql[a];
  }

  /** A GO alone on its line: the text before its line holds exactly the tokens
    * before it, the text after the line exactly those after it. */
  lemma OwnLineCuts(f: Stepper, sql: string, p: nat, ts: seq<Token>, k: nat, b: nat, a: nat, c: nat, e: nat)
    requires Splittable(f) && p <= b <= |sql| && Scan(f, sql, p) == Ok(ts) && k < |ts|
    requires OnLine(sql, ts[k], b, a, c, e) && ts[k].start == a
    ensures Lex(f, sql[p..b]) == Ok(Values(ts[..k])) && Scan(f, sql, e) == Ok(ts[k + 1..])
  {
    ScanAt(f, sql, p, ts, k);
    LineStartReached(f, sql, p, b, a);
    var k' := ScanFromBoundary(f, sql, p, b, ts);
    SpaceSkipped(f, sql, b, a);
    assert |ts[k'..]| == |ts[k..]|;
    ScanSeparator(f, sql, a, c, e);
    var rest := Scan(f, sql, e);
    assert rest.Ok? && ts[k..] == [Token(sql[a..a + 2], a, a + 2, PlainToken)] + rest.value;
    assert rest.value == ts[k..][1..] == ts[k + 1..];
  }

  /** The tokens from a separator line on: its first GO, then those after it. */
  lemma LineTokens(f: Stepper, sql: string, t: Token, tail: seq<Token>, b: nat, a: nat, c: nat, e: nat)
    requires Splittable(f) && OnLine(sql, t, b, a, c, e) && Scan(f, sql, b) == Ok(tail)
    ensures tail != [] && tail[0].start == a && Scan(f, sql, e) == Ok(tail[1..])
  {
    SpaceSkipped(f, sql, b, a);
    ScanSeparator(f, sql, a, c, e);
    var rest := Scan(f, sql, e);
    assert tail == [Token(sql[a..a + 2], a, a + 2, PlainToken)] + rest.value;
  }

  /** A token that ends on the line is the first of the tokens from the line on. */
  lemma OnlyTokenOnLine(f: Stepper, sql: string, tail: seq<Token>, j: nat, e: nat)
    requires tail != [] && e <= |sql| && Scan(f, sql, e) == Ok(tail[1..])
    requires j < |tail| && tail[j].start < e
    ensures j == 0
  {
    if j > 0 {
      LaterStarts(f, sql, e, tail[1..], j - 1);
    }
  }

  /** If the line start is a boundary, the token is the first GO of its line. */
  lemma ReachedLineIsOwn(f: Stepper, sql: string, p: nat, ts: seq<Token>, k: nat, b: nat, a: nat, c: nat, e: nat)
    requires Splittable(f) && p <= b <= |sql| && Scan(f, sql, p) == Ok(ts) && k < |ts|
    requires OnLine(sql, ts[k], b, a, c, e) && Reach(f, sql, p, b)
    ensures ts[k].start == a
  {
    var j := TailWith(f, sql, p, ts, k, b);
    var tail := ts[k - j..];
    LineTokens(f, sql, tail[j], tail, b, a, c, e);
    OnlyTokenOnLine(f, sql, tail, j, e);
  }

  /** Token `k` is the `j`-th of the tokens from a boundary before it on. */
  lemma TailWith(f: Stepper, sql: string, p: nat, ts: seq<Token>, k: nat, b: nat) returns (j: nat)
    requires Splittable(f) && p <= b <= |sql| && Reach(f, sql, p, b) && Scan(f, sql, p) == Ok(ts)
    requires k < |ts| && b <= ts[k].start
    ensures j <= k && Scan(f, sql, b) == Ok(ts[k - j..]) && ts[k - j..][j] == ts[k]
  {
    var first := ScanFromBoundary(f, sql, p, b, ts);
    j := k - first;
  }

  lemma LaterStarts(f: Stepper, sql: string, i: nat, ts: seq<Token>, k: nat)
    requires i <= |sql| && Scan(f, sql, i) == Ok(ts) && k < |ts|
    ensures i <= ts[k].start
  {
    ScanAt(f, sql, i, ts, k);
  }

  /** A GO later on a line that looks like a separator: the line starts inside
    * a token or comment, and the text before it does not lex. */
  lemma ForeignLineFails(f: Stepper, sql: string, p: nat, ts: seq<Token>, k: nat, b: nat, a: nat, c: nat, e: nat)
    requires Splittable(f) && p <= b <= |sql| && Scan(f, sql, p) == Ok(ts) && k < |ts|
    requires OnLine(sql, ts[k], b, a, c, e) && ts[k].start != a
    ensures Lex(f, sql[p..b]).Err?
  {
    ScanAt(f, sql, p, ts, k);
    if Reach(f, sql, p, b) {
      ReachedLineIsOwn(f, sql, p, ts, k, b, a, c, e);
    } else {
      UnreachedLineStartFails(f, sql, p, b, ts[k].start);
    }
  }

  // ---------- the whole split ----------

  predicate AllOwnLines(sql: string, sep: Mark, ts: seq<Token>)
    requires TokensFit(sql, ts)
  {
    forall k | 0 <= k < |ts| :: sep(ts[k]) ==> OwnLine(sql, ts[k])
  }

  /** The tokens other than separators. */
  function Kept(sep: Mark, ts: seq<Token>): seq<Lexeme> {
    if ts == [] then []
    else (if sep(ts[0]) then [] else [Lexeme(ts[0].value, ts[0].kind)]) + Kept(sep, ts[1..])
  }

  /** All tokens of a list of batches, in order. */
  function BatchTokens(f: Stepper, parts: seq<string>): seq<Lexeme> {
    if parts == [] then [] else TokensOf(Lex(f, parts[0])) + BatchTokens(f, parts[1..])
  }

  function TokensOf(r: Result<seq<Lexeme>, LexError>): seq<Lexeme> {
    match r
    case Ok(ts) => ts
    case Err(_) => []
  }

  lemma Associative<T>(a: seq<T>, b: seq<T>, c: seq<T>)
    ensures a + (b + c) == a + b + c
  {
  }

  lemma {:induction false} BatchTokensJoin(f: Stepper, a: seq<string>, b: seq<string>)
    ensures BatchTokens(f, a + b) == BatchTokens(f, a) + BatchTokens(f, b)
  {
    if a == [] {
      assert a + b == b;
    } else {
      assert (a + b)[1..] == a[1..] + b;
      BatchTokensJoin(f, a[1..], b);
      Associative(TokensOf(Lex(f, a[0])), BatchTokens(f, a[1..]), BatchTokens(f, b));
    }
  }

  /** A part keeps its tokens and is rejected exactly when it does not lex. */
  lemma BatchKeeps(f: Stepper, part: string)
    requires Splittable(f)
    ensures Batch(f, part).Ok? <==> Lex(f, part).Ok?
    ensures Batch(f, part).Ok? ==> BatchTokens(f, Batch(f, part).value) == Lex(f, part).value
  {
    StripLex(f, part);
    if Batch(f, part).Ok? {
      var parts := Batch(f, part).value;
      if parts != [] {
        assert BatchTokens(f, parts[1..]) == [];
      }
    }
  }

  /** Index of the first separator, or the length. */
  function First(sep: Mark, ts: seq<Token>): (k: nat)
    ensures k <= |ts| && (k < |ts| ==> sep(ts[k]))
    ensures forall j | 0 <= j < k :: !sep(ts[j])
  {
    if ts == [] || sep(ts[0]) then 0 else 1 + First(sep, ts[1..])
  }

  lemma {:induction false} SeparatorsFromFirst(sep: Mark, bad: Mark, ts: seq<Token>)
    requires Separators(sep, bad, ts).Ok?
    ensures var k := First(sep, ts);
      if k == |ts| then Separators(sep, bad, ts).value == []
      else
        && Separators(sep, bad, ts[k + 1..]).Ok?
        && Separators(sep, bad, ts).value == [ts[k]] + Separators(sep, bad, ts[k + 1..]).value
  {
    if ts != [] && !sep(ts[0]) {
      SeparatorsFromFirst(sep, bad, ts[1..]);
      var k' := First(sep, ts[1..]);
      if k' < |ts[1..]| {
        assert ts[1..][k' + 1..] == ts[k' + 2..];
      }
    }
  }

  lemma {:induction false} KeptFromFirst(sep: Mark, ts: seq<Token>)
    ensures var k := First(sep, ts);
      Kept(sep, ts) == if k == |ts| then Values(ts) else Values(ts[..k]) + Kept(sep, ts[k + 1..])
  {
    if ts == [] {
    } else if sep(ts[0]) {
      assert Values(ts[..0]) == [];
    } else {
      KeptFromFirst(sep, ts[1..]);
      var k' := First(sep, ts[1..]);
      var first := [Lexeme(ts[0].value, ts[0].kind)];
      if k' < |ts[1..]| {
        assert ts[1..][k' + 1..] == ts[k' + 2..];
        assert Values(ts[..k' + 1]) == first + Values(ts[1..][..k']);
      } else {
        assert Values(ts) == first + Values(ts[1..]);
      }
    }
  }

  lemma SameLines(sql: string, sep: Mark, ts: seq<Token>, k: nat)
    requires TokensFit(sql, ts) && k < |ts| && OwnLine(sql, ts[k]) && forall j | 0 <= j < k :: !sep(ts[j])
    ensures AllOwnLines(sql, sep, ts) <==> AllOwnLines(sql, sep, ts[k + 1..])
  {
    var rest := ts[k + 1..];
    assert forall j | 0 <= j < |rest| :: rest[j] == ts[k + 1 + j];
    if AllOwnLines(sql, sep, rest) {
      forall j | 0 <= j < |ts| && sep(ts[j]) ensures OwnLine(sql, ts[j]) {
        if j > k { assert ts[j] == rest[j - k - 1]; }
      }
    }
  }

  /** The outcome `r` of splitting a text whose tokens are `ts`. */
  ghost predicate SplitOk(f: Stepper, sql: string, sep: Mark, ts: seq<Token>, r: Result<seq<string>, SplitError>)
    requires TokensFit(sql, ts)
  {
    && (r.Ok? <==> AllOwnLines(sql, sep, ts))
    && (r.Ok? ==> BatchTokens(f, r.value) == Kept(sep, ts))
  }

  lemma LastPart(f: Stepper, sql: string, sep: Mark, p: nat, ts: seq<Token>)
    requires Splittable(f) && p <= |sql| && Scan(f, sql, p) == Ok(ts) && TokensFit(sql, ts)
    requires First(sep, ts) == |ts|
    ensures SplitOk(f, sql, sep, ts, Batch(f, sql[p..]))
  {
    KeptFromFirst(sep, ts);
    ScanIsLex(f, sql, p);
    BatchKeeps(f, sql[p..]);
  }

  lemma CutPart(f: Stepper, sql: string, sep: Mark, part: string, ts: seq<Token>, k: nat,
                rest: Result<seq<string>, SplitError>)
    requires Splittable(f) && TokensFit(sql, ts) && k == First(sep, ts) < |ts| && OwnLine(sql, ts[k])
    requires Lex(f, part) == Ok(Values(ts[..k])) && SplitOk(f, sql, sep, ts[k + 1..], rest)
    ensures SplitOk(f, sql, sep, ts, Join(Batch(f, part), rest))
  {
    KeptFromFirst(sep, ts);
    BatchKeeps(f, part);
    SameLines(sql, sep, ts, k);
    if rest.Ok? {
      BatchTokensJoin(f, Batch(f, part).value, rest.value);
    }
  }

  lemma BrokenPart(f: Stepper, sql: string, sep: Mark, part: string, ts: seq<Token>, k: nat,
                   rest: Result<seq<string>, SplitError>)
    requires Splittable(f) && TokensFit(sql, ts) && k == First(sep, ts) < |ts| && !OwnLine(sql, ts[k])
    requires Lex(f, part).Err?
    ensures SplitOk(f, sql, sep, ts, Join(Batch(f, part), rest))
  {
    BatchKeeps(f, part);
  }

  /** A cut at a separator that has its line to itself. */
  lemma CutAtOwnLine(f: Stepper, sql: string, p: nat, ts: seq<Token>, k: nat, b: nat, a: nat, c: nat, e: nat)
    requires Splittable(f) && p <= b <= |sql| && Scan(f, sql, p) == Ok(ts) && TokensFit(sql, ts)
    requires k < |ts| && OnLine(sql, ts[k], b, a, c, e) && ts[k].start == a
    ensures OwnLine(sql, ts[k]) && Lex(f, sql[p..b]) == Ok(Values(ts[..k]))
  {
    OwnLineStart(sql, ts[k], b, a, c, e);
    OwnLineCuts(f, sql, p, ts, k, b, a, c, e);
  }

  /** A cut inside a token or comment. */
  lemma CutAtForeignLine(f: Stepper, sql: string, p: nat, ts: seq<Token>, k: nat, b: nat, a: nat, c: nat, e: nat)
    requires Splittable(f) && p <= b <= |sql| && Scan(f, sql, p) == Ok(ts) && TokensFit(sql, ts)
    requires k < |ts| && OnLine(sql, ts[k], b, a, c, e) && ts[k].start != a
    ensures !OwnLine(sql, ts[k]) && Lex(f, sql[p..b]).Err?
  {
    OwnLineStart(sql, ts[k], b, a, c, e);
    ForeignLineFails(f, sql, p, ts, k, b, a, c, e);
  }

  ghost predicate MarksSeparators(sql: string, sep: Mark) {
    forall t :: sep(t) ==> Separates(sql, t)
  }

  /** The line of the first separator; if it is its own line, scanning resumes
    * after it at the start of a part. */
  lemma NextLine(f: Stepper, sql: string, sep: Mark, p: nat, ts: seq<Token>) returns (b: nat, a: nat, c: nat, e: nat)
    requires Splittable(f) && p <= |sql| && PartStart(sql, p) && Scan(f, sql, p) == Ok(ts) && TokensFit(sql, ts)
    requires MarksSeparators(sql, sep) && First(sep, ts) < |ts|
    ensures p <= b && OnLine(sql, ts[First(sep, ts)], b, a, c, e) && PartStart(sql, e)
    ensures ts[First(sep, ts)].start == a ==> Scan(f, sql, e) == Ok(ts[First(sep, ts) + 1..])
  {
    var k := First(sep, ts);
    ScanAt(f, sql, p, ts, k);
    b, a, c, e := SeparatorOnLine(sql, ts[k]);
    LineStartsAfterPart(sql, p, ts[k].start);
    if ts[k].start == a {
      OwnLineCuts(f, sql, p, ts, k, b, a, c, e);
    }
  }

  /** The next cut is at the line `b..e` of the first separator. */
  lemma PartsFirst(f: Stepper, sql: string, p: nat, seps: seq<Token>, b: nat, a: nat, c: nat, e: nat)
    requires p <= b <= |sql| && TokensFit(sql, seps) && seps != [] && OnLine(sql, seps[0], b, a, c, e)
    ensures Parts(f, sql, p, seps) == Join(Batch(f, sql[p..b]), Parts(f, sql, e, seps[1..]))
  {
  }

  /** One cut, given that the text after the separator's line splits well. */
  lemma CutKeeps(f: Stepper, sql: string, sep: Mark, p: nat, ts: seq<Token>, k: nat, seps: seq<Token>, b: nat, a: nat,
                 c: nat, e: nat)
    requires Splittable(f) && p <= b <= |sql| && Scan(f, sql, p) == Ok(ts) && TokensFit(sql, ts) && TokensFit(sql, seps)
    requires k == First(sep, ts) < |ts| && seps != [] && seps[0] == ts[k] && OnLine(sql, ts[k], b, a, c, e)
    requires ts[k].start == a ==> SplitOk(f, sql, sep, ts[k + 1..], Parts(f, sql, e, seps[1..]))
    ensures SplitOk(f, sql, sep, ts, Parts(f, sql, p, seps))
  {
    PartsFirst(f, sql, p, seps, b, a, c, e);
    var rest := Parts(f, sql, e, seps[1..]);
    if ts[k].start == a {
      CutAtOwnLine(f, sql, p, ts, k, b, a, c, e);
      CutPart(f, sql, sep, sql[p..b], ts, k, rest);
    } else {
      CutAtForeignLine(f, sql, p, ts, k, b, a, c, e);
      BrokenPart(f, sql, sep, sql[p..b], ts, k, rest);
    }
  }

  /** From any part start on, splitting succeeds exactly when every separator
    * has its line to itself, and then keeps exactly the other tokens. */
  lemma {:induction false} PartsKeep(f: Stepper, sql: string, sep: Mark, bad: Mark, p: nat, ts: seq<Token>)
    requires Splittable(f) && p <= |sql| && PartStart(sql, p) && Scan(f, sql, p) == Ok(ts) && TokensFit(sql, ts)
    requires MarksSeparators(sql, sep) && Separators(sep, bad, ts).Ok?
    ensures SplitOk(f, sql, sep, ts, Parts(f, sql, p, Separators(sep, bad, ts).value))
    decreases |ts|
  {
    var k, seps := First(sep, ts), Separators(sep, bad, ts).value;
    SeparatorsFromFirst(sep, bad, ts);
    if k == |ts| {
      LastPart(f, sql, sep, p, ts);
    } else {
      var b, a, c, e := NextLine(f, sql, sep, p, ts);
      if ts[k].start == a {
        PartsKeep(f, sql, sep, bad, e, ts[k + 1..]);
      }
      CutKeeps(f, sql, sep, p, ts, k, seps, b, a, c, e);
    }
  }

  /** Splitting loses and invents nothing: the batches hold, in order, exactly
    * the tokens of the script other than its separators.  A script that lexes
    * and has no unsupported GO line is rejected if and only if some separator
    * line begins inside a token or comment. */
  lemma SplitLosesNothing(sql: string)
    ensures var r, sep := Scan(LexStep, sql, 0), SeparatorOf(sql);
      if r.Err? || Separators(sep, UnsupportedOf(sql), r.value).Err? then Split(LexStep, sql).Err?
      else TokensFit(sql, r.value) && SplitOk(LexStep, sql, sep, r.value, Split(LexStep, sql))
  {
    LexStepSplittable();
    SplitKeeps(LexStep, sql);
  }

  lemma SplitKeeps(f: Stepper, sql: string)
    requires Splittable(f)
    ensures var r, sep := Scan(f, sql, 0), SeparatorOf(sql);
      if r.Err? || Separators(sep, UnsupportedOf(sql), r.value).Err? then Split(f, sql).Err?
      else TokensFit(sql, r.value) && SplitOk(f, sql, sep, r.value, Split(f, sql))
  {
    ScanFits(f, sql);
    if Scan(f, sql, 0).Ok? {
      var ts := Scan(f, sql, 0).value;
      if Separators(SeparatorOf(sql), UnsupportedOf(sql), ts).Ok? {
        PartsKeep(f, sql, SeparatorOf(sql), UnsupportedOf(sql), 0, ts);
      }
    }
  }

  // ---------- a rejected script ----------

  const FOREIGN := "[\nGO--]GO"

  lemma {:induction false} NoQuoteInside(s: string, i: nat, j: nat, c: char)
    requires i <= j <= |s| && forall x | i <= x < j :: s[x] != c
    ensures CloseQuoteAt(s, i, c) == CloseQuoteAt(s, j, c)
    decreases j - i
  {
    if i < j {
      CloseQuoteAtStep(s, i, c);
      NoQuoteInside(s, i + 1, j, c);
    }
  }

  lemma ForeignName(s: string)
    requires s == FOREIGN
    ensures LexStep(s) == Emit(7, IdentifierToken)
  {
    assert |s| == 9 && s[0] == '[' && s[6] == ']' && s[7] == 'G' && forall x | 1 <= x < 6 :: s[x] != ']';
    BracketedName(s, 6);
  }

  lemma BracketedName(s: string, n: nat)
    requires 0 < n < |s| - 1 && s[0] == '[' && s[n] == ']' && s[n + 1] != ']'
    requires forall x | 1 <= x < n :: s[x] != ']'
    ensures LexStep(s) == Emit(n + 1, IdentifierToken)
  {
    NoQuoteInside(s, 1, n, ']');
    CloseQuoteAtStep(s, n, ']');
  }

  lemma ForeignTokens()
    ensures Scan(LexStep, FOREIGN, 0)
         == Ok([Token(FOREIGN[0..7], 0, 7, IdentifierToken), Token("GO", 7, 9, PlainToken)])
  {
    var s := FOREIGN;
    ForeignName(s);
    assert s[7..] == "GO" && s[7..][..2] == "GO";
    GoStep(s[7..]);
    TwoTokens(LexStep, s, 7, IdentifierToken, PlainToken);
    assert s[7..9] == "GO";
  }

  lemma TwoTokens(f: Stepper, s: string, n: nat, first: Kind, second: Kind)
    requires 0 < n < |s| && f(s) == Emit(n, first) && f(s[n..]) == Emit(|s| - n, second)
    ensures Scan(f, s, 0) == Ok([Token(s[0..n], 0, n, first), Token(s[n..|s|], n, |s|, second)])
  {
    assert s[0..] == s && s[|s|..] == [];
    assert StepFits([], f([]));
    var one, two := Token(s[0..n], 0, n, first), Token(s[n..|s|], n, |s|, second);
    PrependNothing(Scan(f, s, 0));
    ScanStep(f, s, 0, [], Emit(n, first));
    ScanStep(f, s, n, [one], Emit(|s| - n, second));
    ScanStep(f, s, |s|, [one, two], Done);
    assert [] + [one] == [one] && [one] + [two] == [one, two];
  }

  lemma ForeignLine()
    ensures SeparatorLine(FOREIGN[2..9])
  {
    var line := FOREIGN[2..9];
    assert line == "GO--]GO" && SpaceRun(line) == 0 && line[0..2] == "GO";
    var tail := line[2..];
    assert tail == "--]GO" && SpaceRun(tail) == 0;
    assert tail[0..] == tail && tail[..2] == "--";
  }

  lemma ForeignLineBounds()
    ensures LineStart(FOREIGN, 7) == 2 && LineEnd(FOREIGN, 9) == 9
  {
    var b := LineStart(FOREIGN, 7);
    assert FOREIGN[1] == '\n';
    assert b == 0 || FOREIGN[b - 1] == '\n';
  }

  lemma ForeignLineIsRejected(sql: string, ts: seq<Token>, k: nat)
    requires Scan(LexStep, sql, 0) == Ok(ts) && k < |ts| && Separates(sql, ts[k]) && !OwnLine(sql, ts[k])
    ensures Split(LexStep, sql).Err?
  {
    SplitLosesNothing(sql);
    assert SeparatorOf(sql)(ts[k]);
  }

  /** A script that lexes, whose GO shares its line with the end of a bracketed
    * name, looks like a separator and is rejected. */
  lemma ForeignLineRejected()
    ensures Scan(LexStep, FOREIGN, 0).Ok? && Split(LexStep, FOREIGN).Err?
  {
    ForeignTokens();
    ForeignLine();
    ForeignLineBounds();
    assert FOREIGN[2] == 'G';
    var t := Token("GO", 7, 9, PlainToken);
    assert Separates(FOREIGN, t) && !OwnLine(FOREIGN, t);
    ForeignLineIsRejected(FOREIGN, [Token(FOREIGN[0..7], 0, 7, IdentifierToken), t], 1);
  }

  // ---------- the splitting loops ----------

  method TryBatch(part: string) returns (r: Result<seq<string>, SplitError>)
    ensures r == Batch(LexStep, part)
  {
    var stripped := Strip(part);
    var ts := Tokens(stripped);
    ScanIsLex(LexStep, stripped, 0);
    assert stripped[0..] == stripped;
    match ts
    case Err(e) => r := Err(Lexical(e));
    case Ok(found) => r := Ok(if found == [] then [] else [stripped]);
  }

  function After<T>(done: seq<T>, r: Result<seq<T>, SplitError>): Result<seq<T>, SplitError> {
    match r
    case Ok(rest) => Ok(done + rest)
    case Err(e) => Err(e)
  }

  lemma AfterNothing<T>(r: Result<seq<T>, SplitError>)
    ensures After([], r) == r
  {
    if r.Ok? {
      assert [] + r.value == r.value;
    }
  }

  lemma AfterAfter<T>(a: seq<T>, b: seq<T>, r: Result<seq<T>, SplitError>)
    ensures After(a, After(b, r)) == After(a + b, r)
  {
    if r.Ok? {
      assert a + (b + r.value) == a + b + r.value;
    }
  }

  method CollectSeparators(sep: Mark, bad: Mark, ts: seq<Token>) returns (r: Result<seq<Token>, SplitError>)
    ensures r == Separators(sep, bad, ts)
  {
    var found := [];
    ghost var all := Separators(sep, bad, ts);
    AfterNothing(all);
    assert ts[0..] == ts;
    for k := 0 to |ts|
      invariant all == After(found, Separators(sep, bad, ts[k..]))
    {
      assert ts[k..][1..] == ts[k + 1..];
      if sep(ts[k]) {
        AfterAfter(found, [ts[k]], Separators(sep, bad, ts[k + 1..]));
        found := found + [ts[k]];
      } else if bad(ts[k]) {
        return Err(UnsupportedSeparator);
      }
    }
    assert ts[|ts|..] == [] && found + [] == found;
    return Ok(found);
  }

  lemma PartsStep(f: Stepper, sql: string, parts: seq<string>, start: nat, seps: seq<Token>,
                  batch: Result<seq<string>, SplitError>)
    requires start <= |sql| && TokensFit(sql, seps) && seps != []
    requires batch == Batch(f, Slice(sql, start, LineStart(sql, seps[0].start)))
    ensures After(parts, Parts(f, sql, start, seps))
         == if batch.Err? then batch
            else After(parts + batch.value, Parts(f, sql, LineEnd(sql, seps[0].end), seps[1..]))
  {
    var rest := Parts(f, sql, LineEnd(sql, seps[0].end), seps[1..]);
    if batch.Ok? {
      AfterAfter(parts, batch.value, rest);
    }
  }

  /** What the loop still has to add to the batches it has. */
  ghost predicate Remaining(sql: string, all: Result<seq<string>, SplitError>, parts: seq<string>, start: nat,
                            seps: seq<Token>) {
    start <= |sql| && TokensFit(sql, seps) && all == After(parts, Parts(LexStep, sql, start, seps))
  }

  lemma RemainingStart(sql: string, seps: seq<Token>)
    requires TokensFit(sql, seps)
    ensures Remaining(sql, Parts(LexStep, sql, 0, seps), [], 0, seps)
  {
    AfterNothing(Parts(LexStep, sql, 0, seps));
  }

  lemma RemainingStep(sql: string, all: Result<seq<string>, SplitError>, parts: seq<string>, start: nat,
                      seps: seq<Token>,
                      batch: Result<seq<string>, SplitError>)
    requires Remaining(sql, all, parts, start, seps) && seps != []
    requires batch == Batch(LexStep, Slice(sql, start, LineStart(sql, seps[0].start)))
    ensures if batch.Err? then all == batch
            else Remaining(sql, all, parts + batch.value, LineEnd(sql, seps[0].end), seps[1..])
  {
    PartsStep(LexStep, sql, parts, start, seps, batch);
  }

  /** The next batch up to a separator line. */
  method CutNext(sql: string, ghost all: Result<seq<string>, SplitError>, parts: seq<string>, start: nat,
                 seps: seq<Token>)
    returns (batch: Result<seq<string>, SplitError>, next: nat)
    requires Remaining(sql, all, parts, start, seps) && seps != []
    ensures if batch.Err? then all == batch else Remaining(sql, all, parts + batch.value, next, seps[1..])
  {
    batch := TryBatch(Slice(sql, start, LineStart(sql, seps[0].start)));
    next := LineEnd(sql, seps[0].end);
    RemainingStep(sql, all, parts, start, seps, batch);
  }

  /** The last batch. */
  method CutLast(sql: string, ghost all: Result<seq<string>, SplitError>, parts: seq<string>, start: nat)
    returns (r: Result<seq<string>, SplitError>)
    requires Remaining(sql, all, parts, start, [])
    ensures r == all
  {
    var last := TryBatch(sql[start..]);
    return After(parts, last);
  }

  method CutParts(sql: string, seps: seq<Token>) returns (r: Result<seq<string>, SplitError>)
    requires TokensFit(sql, seps)
    ensures r == Parts(LexStep, sql, 0, seps)
  {
    ghost var all := Parts(LexStep, sql, 0, seps);
    RemainingStart(sql, seps);
    var parts, start, rest := [], 0, seps;
    while rest != []
      invariant Remaining(sql, all, parts, start, rest)
      decreases |rest|
    {
      var batch, next := CutNext(sql, all, parts, start, rest);
      if batch.Err? {
        return batch;
      }
      parts, start, rest := parts + batch.value, next, rest[1..];
    }
    r := CutLast(sql, all, parts, start);
  }

  method SplitBatches(sql: string) returns (r: Result<seq<string>, SplitError>)
    ensures r == Split(LexStep, sql)
  {
    var ts := Tokens(sql);
    if ts.Err? {
      return Err(Lexical(ts.error));
    }
    ScanFits(LexStep, sql);
    var seps := CollectSeparators(SeparatorOf(sql), UnsupportedOf(sql), ts.value);
    if seps.Err? {
      return Err(seps.error);
    }
    r := CutParts(sql, seps.value);
  }
}
