/** The hand-written SQL tokenizer. */
module Lexer {
  import opened Common
  import opened TextOps
  import opened Scanning

  // ---------- character classes ----------

  predicate IsLetter(c: char) {
    'a' <= c <= 'z' || 'A' <= c <= 'Z'
  }

  predicate IsDigit(c: char) {
    '0' <= c <= '9'
  }

  predicate IsWordStart(c: char) {
    IsLetter(c) || c == '_' || c == '@' || c == '#'
  }

  predicate IsWordPart(c: char) {
    IsWordStart(c) || IsDigit(c) || c == '$'
  }

  function Upper(c: char): char {
    if 'a' <= c <= 'z' then (c as int - 32) as char else c
  }

  // ---------- one lexical step on the remaining text ----------

  /** Length of the quoted rest up to and including the closing `c`; a doubled
    * `c` does not close. */
  function CloseQuote(s: string, c: char): (r: Option<nat>)
    ensures r.Some? ==> 1 <= r.value <= |s| && s[r.value - 1] == c
  {
    if s == [] then None
    else if s[0] == c then
      if |s| > 1 && s[1] == c then More(2, CloseQuote(s[2..], c)) else Some(1)
    else More(1, CloseQuote(s[1..], c))
  }

  function More(n: nat, r: Option<nat>): Option<nat> {
    match r
    case Some(m) => Some(n + m)
    case None => None
  }

  /** Length of the rest of a block comment of the given nesting depth. */
  function CloseComment(s: string, depth: nat): (r: Option<nat>)
    ensures r.Some? ==> r.value <= |s| && (depth > 0 ==> r.value >= 2 && s[r.value - 1] == '/')
  {
    if depth == 0 then Some(0)
    else if s == [] then None
    else if StartsWith(s, "/*") then More(2, CloseComment(s[2..], depth + 1))
    else if StartsWith(s, "*/") then More(2, CloseComment(s[2..], depth - 1))
    else More(1, CloseComment(s[1..], depth))
  }

  function WordRun(s: string): (n: nat)
    ensures n <= |s| && (forall i | 0 <= i < n :: IsWordPart(s[i])) && (n < |s| ==> !IsWordPart(s[n]))
  {
    if s != [] && IsWordPart(s[0]) then 1 + WordRun(s[1..]) else 0
  }

  function DigitRun(s: string): (n: nat)
    ensures n <= |s| && (forall i | 0 <= i < n :: IsDigit(s[i])) && (n < |s| ==> !IsDigit(s[n]))
  {
    if s != [] && IsDigit(s[0]) then 1 + DigitRun(s[1..]) else 0
  }

  /** An identifier-like word, a number with optional fraction, or one character. */
  function PlainLength(s: string): (n: nat)
    requires s != []
    ensures 1 <= n <= |s|
  {
    if IsWordStart(s[0]) then 1 + WordRun(s[1..])
    else if IsDigit(s[0]) then
      var d := DigitRun(s);
      if d < |s| && s[d] == '.' && DigitRun(s[d + 1..]) > 0 then d + 1 + DigitRun(s[d + 1..]) else d
    else 1
  }

  function Quoted(skip: nat, r: Option<nat>, kind: Kind, error: LexError): Step {
    match r
    case Some(n) => Emit(skip + n, kind)
    case None => Fail(error)
  }

  function LexStep(s: string): (step: Step)
    ensures StepFits(s, step)
  {
    if s == [] then Done
    else if IsSpace(s[0]) then Skip(1)
    else if StartsWith(s, "--") then Skip(LineLength(s))
    else if StartsWith(s, "/*") then
      (match CloseComment(s[2..], 1)
       case Some(n) => Skip(n + 2)
       case None => Fail(UnclosedComment))
    else if s[0] == '\'' then Quoted(1, CloseQuote(s[1..], '\''), StringToken, UnclosedString)
    else if (s[0] == 'N' || s[0] == 'n') && |s| > 1 && s[1] == '\'' then
      Quoted(2, CloseQuote(s[2..], '\''), StringToken, UnclosedString)
    else if s[0] == '[' then Quoted(1, CloseQuote(s[1..], ']'), IdentifierToken, UnclosedIdentifier)
    else if s[0] == '"' then Fail(DoubleQuoted)
    else Emit(PlainLength(s), PlainToken)
  }

  // ---------- the step looks no further than its own end ----------

  lemma DropOfPrefix(s: string, m: nat, d: nat)
    requires d <= m <= |s|
    ensures s[..m][d..] == s[d..][..m - d]
  {
  }

  lemma {:induction false} CloseQuotePrefix(s: string, c: char, m: nat)
    requires m <= |s|
    ensures var r := CloseQuote(s, c); r.Some? && r.value <= m ==> CloseQuote(s[..m], c) == r
    ensures var r := CloseQuote(s[..m], c); r.Some? && (r.value < m || m == |s| || s[m] != c) ==> CloseQuote(s, c) == r
  {
    if s != [] && m > 0 {
      if s[0] == c {
        if |s| > 1 && s[1] == c {
          if m >= 2 {
            CloseQuotePrefix(s[2..], c, m - 2);
            assert s[..m][2..] == s[2..][..m - 2];
          }
        }
      } else {
        CloseQuotePrefix(s[1..], c, m - 1);
        assert s[..m][1..] == s[1..][..m - 1];
      }
    }
  }

  lemma MarkOfPrefix(s: string, m: nat, mark: string)
    requires |mark| <= m <= |s|
    ensures StartsWith(s[..m], mark) == StartsWith(s, mark)
  {
    assert s[..m][..|mark|] == s[..|mark|];
  }

  /** Length and nesting depth after the first mark or character. */
  function CommentStep(s: string, depth: nat): (nat, nat)
    requires depth > 0 && s != []
  {
    if StartsWith(s, "/*") then (2, depth + 1) else if StartsWith(s, "*/") then (2, depth - 1) else (1, depth)
  }

  lemma CommentSteps(s: string, depth: nat, n: nat, d: nat)
    requires depth > 0 && s != [] && (n, d) == CommentStep(s, depth)
    ensures n <= |s| && CloseComment(s, depth) == More(n, CloseComment(s[n..], d))
  {
  }

  lemma CommentStepOfPrefix(s: string, depth: nat, m: nat)
    requires depth > 0 && 2 <= m <= |s|
    ensures CommentStep(s[..m], depth) == CommentStep(s, depth)
  {
    MarkOfPrefix(s, m, "/*");
    MarkOfPrefix(s, m, "*/");
  }

  lemma {:induction false} CloseCommentPrefix(s: string, depth: nat, m: nat)
    requires m <= |s|
    ensures var r := CloseComment(s, depth); r.Some? && r.value <= m ==> CloseComment(s[..m], depth) == r
    decreases |s|
  {
    if depth > 0 && m >= 2 {
      var (n, d) := CommentStep(s, depth);
      CommentSteps(s, depth, n, d);
      CommentStepOfPrefix(s, depth, m);
      CommentSteps(s[..m], depth, n, d);
      DropOfPrefix(s, m, n);
      CloseCommentPrefix(s[n..], d, m - n);
    }
  }

  lemma {:induction false} CloseCommentExtends(s: string, depth: nat, m: nat)
    requires m <= |s| && CloseComment(s[..m], depth).Some?
    ensures CloseComment(s, depth) == CloseComment(s[..m], depth)
    decreases |s|
  {
    if depth > 0 && m >= 2 {
      var (n, d) := CommentStep(s, depth);
      CommentSteps(s, depth, n, d);
      CommentStepOfPrefix(s, depth, m);
      CommentSteps(s[..m], depth, n, d);
      DropOfPrefix(s, m, n);
      CloseCommentExtends(s[n..], d, m - n);
    }
  }

  lemma {:induction false} WordRunPrefix(s: string, m: nat)
    requires m <= |s|
    ensures WordRun(s[..m]) == Min(WordRun(s), m)
  {
  }

  lemma {:induction false} DigitRunPrefix(s: string, m: nat)
    requires m <= |s|
    ensures DigitRun(s[..m]) == Min(DigitRun(s), m)
  {
  }

  lemma PlainPrefix(s: string, m: nat)
    requires 0 < m <= |s| && PlainLength(s) <= m
    ensures PlainLength(s[..m]) == PlainLength(s)
  {
    assert s[..m][0] == s[0];
    if IsWordStart(s[0]) {
      assert s[..m][1..] == s[1..][..m - 1];
      WordRunPrefix(s[1..], m - 1);
    } else if IsDigit(s[0]) {
      NumberPrefix(s, m);
    }
  }

  lemma NumberPrefix(s: string, m: nat)
    requires 0 < m <= |s| && PlainLength(s) <= m && !IsWordStart(s[0]) && IsDigit(s[0])
    ensures PlainLength(s[..m]) == PlainLength(s)
  {
    assert s[..m][0] == s[0];
    DigitRunPrefix(s, m);
    if DigitRun(s) < m {
      DigitsAfter(s, m, DigitRun(s) + 1);
    }
  }

  lemma DigitsAfter(s: string, m: nat, d: nat)
    requires d <= m <= |s|
    ensures DigitRun(s[..m][d..]) == Min(DigitRun(s[d..]), m - d)
  {
    DropOfPrefix(s, m, d);
    DigitRunPrefix(s[d..], m - d);
  }

  lemma {:induction false} LinePrefix(s: string, m: nat)
    requires 0 < m <= |s|
    ensures LineLength(s[..m]) == Min(LineLength(s), m)
  {
  }

  lemma QuotedLocal(s: string, m: nat, skip: nat, c: char)
    requires skip <= m <= |s| && More(skip, CloseQuote(s[skip..], c)).Some?
    requires More(skip, CloseQuote(s[skip..], c)).value <= m
    ensures CloseQuote(s[..m][skip..], c) == CloseQuote(s[skip..], c)
  {
    assert s[..m][skip..] == s[skip..][..m - skip];
    CloseQuotePrefix(s[skip..], c, m - skip);
  }

  lemma LexStepLocal(s: string, m: nat)
    requires m <= |s| && LexStep(s).Moves() && LexStep(s).n <= m
    ensures LexStep(s[..m]) == LexStep(s)
  {
    var t := s[..m];
    assert t[0] == s[0];
    assert m >= 2 ==> t[..2] == s[..2];
    if IsSpace(s[0]) {
    } else if StartsWith(s, "--") {
      LinePrefix(s, m);
    } else if StartsWith(s, "/*") {
      assert t[2..] == s[2..][..m - 2];
      CloseCommentPrefix(s[2..], 1, m - 2);
    } else if s[0] == '\'' {
      QuotedLocal(s, m, 1, '\'');
    } else if (s[0] == 'N' || s[0] == 'n') && |s| > 1 && s[1] == '\'' {
      QuotedLocal(s, m, 2, '\'');
    } else if s[0] == '[' {
      QuotedLocal(s, m, 1, ']');
    } else {
      PlainPrefix(s, m);
    }
  }

  /** The tokenizer's step is local, so tokens can be cut apart at boundaries. */
  lemma LexStepIsLocal()
    ensures Local(LexStep)
  {
    forall s, m: nat ensures LocalAt(LexStep, s, m) {
      if m <= |s| && LexStep(s).Moves() && LexStep(s).n <= m {
        LexStepLocal(s, m);
      }
    }
  }

  // ---------- steps and white space, steps and line feeds ----------

  lemma {:induction false} PlainHasNoSpace(s: string, j: nat)
    requires s != [] && !IsSpace(s[0]) && j < PlainLength(s)
    ensures !IsSpace(s[j])
  {
    if IsWordStart(s[0]) {
      if j > 0 { assert s[1..][j - 1] == s[j]; }
    } else if IsDigit(s[0]) {
      var d := DigitRun(s);
      if j > d { assert s[d + 1..][j - d - 1] == s[j]; }
    }
  }

  /** Only white space and line comments end in white space. */
  lemma StepTail(s: string)
    requires LexStep(s).Moves() && IsSpace(s[LexStep(s).n - 1])
    ensures LexStep(s).Skip?
    ensures LexStep(s).n == 1
            || (StartsWith(s, "--") && forall j | 0 <= j < LexStep(s).n - 1 :: s[j] != '\n')
  {
    var step := LexStep(s);
    if step.Emit? && step.kind == PlainToken {
      PlainHasNoSpace(s, step.n - 1);
    }
  }

  lemma QuoteCut(s: string, c: char, m: nat)
    requires CloseQuote(s, c).Some? && m < CloseQuote(s, c).value && (m > 0 ==> s[m - 1] != c)
    ensures CloseQuote(s[..m], c).None?
  {
    CloseQuotePrefix(s, c, m);
  }

  lemma CommentCut(s: string, m: nat)
    requires CloseComment(s, 1).Some? && m < CloseComment(s, 1).value
    ensures CloseComment(s[..m], 1).None?
  {
    if CloseComment(s[..m], 1).Some? {
      CloseCommentExtends(s, 1, m);
    }
  }

  /** A step that runs on over a line feed is quoted or a block comment: cut
    * right after the line feed it is unclosed. */
  lemma StepCut(s: string, m: nat)
    requires LexStep(s).Moves() && 0 < m < LexStep(s).n && s[m - 1] == '\n'
    ensures LexStep(s[..m]).Fail?
  {
    var t, step := s[..m], LexStep(s);
    assert t[0] == s[0];
    assert t[1..] == s[1..][..m - 1];
    if m >= 2 {
      assert t[..2] == s[..2] && t[2..] == s[2..][..m - 2];
      if StartsWith(s, "/*") {
        CommentCut(s[2..], m - 2);
      } else if s[0] == '\'' {
        QuoteCut(s[1..], '\'', m - 1);
      } else if (s[0] == 'N' || s[0] == 'n') && s[1] == '\'' {
        QuoteCut(s[2..], '\'', m - 2);
      } else if s[0] == '[' {
        QuoteCut(s[1..], ']', m - 1);
      } else if !IsSpace(s[0]) && !StartsWith(s, "--") {
        PlainHasNoSpace(s, m - 1);
      }
    }
  }

  /** Dropping trailing white space does not repair an unclosed token. */
  lemma FailCut(s: string)
    requires LexStep(s).Fail? && IsSpace(s[|s| - 1])
    ensures LexStep(s[..|s| - 1]) == LexStep(s)
  {
    var m := |s| - 1;
    assert s[..m][0] == s[0];
    if m >= 2 {
      MarkOfPrefix(s, m, "--");
      MarkOfPrefix(s, m, "/*");
      DropOfPrefix(s, m, 2);
    }
    DropOfPrefix(s, m, 1);
    if StartsWith(s, "/*") {
      if CloseComment(s[2..][..m - 2], 1).Some? {
        CloseCommentExtends(s[2..], 1, m - 2);
      }
    } else if s[0] == '\'' {
      CloseQuotePrefix(s[1..], '\'', m - 1);
    } else if (s[0] == 'N' || s[0] == 'n') && |s| > 1 && s[1] == '\'' {
      CloseQuotePrefix(s[2..], '\'', m - 2);
    } else if s[0] == '[' {
      CloseQuotePrefix(s[1..], ']', m - 1);
    }
  }

  /** What cutting relies on, for this tokenizer. */
  lemma LexStepAtSpace()
    ensures SkipsSpace(LexStep) && SkipsLines(LexStep)
  {
    forall s ensures SkipsSpaceAt(LexStep, s) && SkipsLineAt(LexStep, s) {}
  }

  lemma LexStepSpaceTails()
    ensures SpaceTails(LexStep)
  {
    forall s ensures SpaceTailAt(LexStep, s) {
      if LexStep(s).Moves() && 0 < LexStep(s).n <= |s| && IsSpace(s[LexStep(s).n - 1]) {
        StepTail(s);
      }
    }
  }

  lemma LexStepFails()
    ensures FailsWithoutTail(LexStep) && FailsInsideLines(LexStep)
  {
    forall s ensures FailsWithoutTailAt(LexStep, s) {
      if s != [] && LexStep(s).Fail? && IsSpace(s[|s| - 1]) {
        FailCut(s);
      }
    }
    forall s, m: nat ensures FailsInsideLineAt(LexStep, s, m) {
      if m <= |s| && LexStep(s).Moves() && 0 < m < LexStep(s).n && s[m - 1] == '\n' {
        StepCut(s, m);
      }
    }
  }

  // ---------- the tokenizer loop ----------

  /** Position after the closing `c` of a quoted text that continues at `i`. */
  function CloseQuoteAt(sql: string, i: nat, c: char): Option<nat>
    requires i <= |sql|
  {
    More(i, CloseQuote(sql[i..], c))
  }

  function CloseCommentAt(sql: string, i: nat, depth: nat): Option<nat>
    requires i <= |sql|
  {
    More(i, CloseComment(sql[i..], depth))
  }

  lemma CloseQuoteAtStep(sql: string, i: nat, c: char)
    requires i < |sql|
    ensures CloseQuoteAt(sql, i, c)
         == if sql[i] != c then CloseQuoteAt(sql, i + 1, c)
            else if i + 1 < |sql| && sql[i + 1] == c then CloseQuoteAt(sql, i + 2, c)
            else Some(i + 1)
  {
    var s := sql[i..];
    assert s[1..] == sql[i + 1..];
    if i + 1 < |sql| {
      assert s[2..] == sql[i + 2..];
    }
  }

  lemma CloseCommentAtStep(sql: string, i: nat, depth: nat)
    requires i < |sql| && depth > 0
    ensures CloseCommentAt(sql, i, depth)
         == if StartsWith(sql[i..], "/*") then CloseCommentAt(sql, i + 2, depth + 1)
            else if StartsWith(sql[i..], "*/") then CloseCommentAt(sql, i + 2, depth - 1)
            else CloseCommentAt(sql, i + 1, depth)
  {
    var s := sql[i..];
    assert s[1..] == sql[i + 1..];
    if i + 1 < |sql| {
      assert s[2..] == sql[i + 2..];
    }
  }

  /** The loop over a quoted text: position after the closing `c`. */
  method SkipQuoted(sql: string, start: nat, c: char) returns (end: Option<nat>)
    requires start <= |sql|
    ensures end == CloseQuoteAt(sql, start, c)
  {
    var i := start;
    while i < |sql|
      invariant start <= i <= |sql|
      invariant CloseQuoteAt(sql, start, c) == CloseQuoteAt(sql, i, c)
      decreases |sql| - i
    {
      CloseQuoteAtStep(sql, i, c);
      if sql[i] == c {
        if i + 1 < |sql| && sql[i + 1] == c {
          i := i + 2;
        } else {
          return Some(i + 1);
        }
      } else {
        i := i + 1;
      }
    }
    return None;
  }

  /** The loop over a block comment, nested comments included. */
  method SkipComment(sql: string, start: nat) returns (end: Option<nat>)
    requires start <= |sql|
    ensures end == CloseCommentAt(sql, start, 1)
  {
    var i, depth := start, 1;
    while depth > 0 && i < |sql|
      invariant start <= i <= |sql| && 0 <= depth
      invariant CloseCommentAt(sql, start, 1) == CloseCommentAt(sql, i, depth)
      decreases |sql| - i
    {
      CloseCommentAtStep(sql, i, depth);
      if StartsWith(sql[i..], "/*") {
        i, depth := i + 2, depth + 1;
      } else if StartsWith(sql[i..], "*/") {
        i, depth := i + 2, depth - 1;
      } else {
        i := i + 1;
      }
    }
    return if depth > 0 then None else Some(i);
  }

  /** One round of the tokenizer loop, with its inner loops. */
  method NextStep(sql: string, i: nat) returns (step: Step)
    requires i < |sql|
    ensures step == LexStep(sql[i..])
  {
    var rest := sql[i..];
    if IsSpace(sql[i]) {
      step := Skip(1);
    } else if StartsWith(rest, "--") {
      step := Skip(LineLength(rest));
    } else if StartsWith(rest, "/*") {
      var end := SkipComment(sql, i + 2);
      assert sql[i + 2..] == rest[2..];
      step := if end.Some? then Skip(end.value - i) else Fail(UnclosedComment);
    } else if sql[i] == '\'' {
      var end := SkipQuoted(sql, i + 1, '\'');
      assert sql[i + 1..] == rest[1..];
      step := if end.Some? then Emit(end.value - i, StringToken) else Fail(UnclosedString);
    } else if (sql[i] == 'N' || sql[i] == 'n') && i + 1 < |sql| && sql[i + 1] == '\'' {
      var end := SkipQuoted(sql, i + 2, '\'');
      assert sql[i + 2..] == rest[2..];
      step := if end.Some? then Emit(end.value - i, StringToken) else Fail(UnclosedString);
    } else if sql[i] == '[' {
      var end := SkipQuoted(sql, i + 1, ']');
      assert sql[i + 1..] == rest[1..];
      step := if end.Some? then Emit(end.value - i, IdentifierToken) else Fail(UnclosedIdentifier);
    } else if sql[i] == '"' {
      step := Fail(DoubleQuoted);
    } else {
      step := Emit(PlainLength(rest), PlainToken);
    }
  }

  /** `f` takes the same steps as the tokenizer. */
  predicate SameStepAt(f: Stepper, s: string) {
    LexStep(s) == f(s)
  }

  ghost predicate SameSteps(f: Stepper) {
    forall s :: SameStepAt(f, s)
  }

  method StepOf(sql: string, i: nat, ghost f: Stepper) returns (step: Step)
    requires i < |sql| && SameSteps(f)
    ensures step == f(sql[i..])
  {
    step := NextStep(sql, i);
    assert SameStepAt(f, sql[i..]);
  }

  method TokensBy(sql: string, ghost f: Stepper) returns (r: Result<seq<Token>, LexError>)
    requires SameSteps(f)
    ensures r == Scan(f, sql, 0)
  {
    var result, i := [], 0;
    ghost var all := Scan(f, sql, 0);
    PrependNothing(all);
    while i < |sql|
      invariant i <= |sql|
      invariant all == Prepend(result, Scan(f, sql, i))
      decreases |sql| - i
    {
      var step := StepOf(sql, i, f);
      ScanStep(f, sql, i, result, step);
      if step.Fail? {
        return Err(step.error);
      }
      if step.Emit? {
        result := result + [Token(sql[i..i + step.n], i, i + step.n, step.kind)];
      }
      i := i + step.n;
    }
    ScanEnds(f, sql, result);
    return Ok(result);
  }

  lemma ScanEnds(f: Stepper, sql: string, result: seq<Token>)
    ensures Prepend(result, Scan(f, sql, |sql|)) == Ok(result)
  {
    assert sql[|sql|..] == [] && StepFits([], f([]));
    ScanStep(f, sql, |sql|, result, Done);
  }

  method Tokens(sql: string) returns (r: Result<seq<Token>, LexError>)
    ensures r == Scan(LexStep, sql, 0)
  {
    assert SameSteps(LexStep);
    r := TokensBy(sql, LexStep);
  }
}
