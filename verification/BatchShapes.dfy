/** The shape of separator lines and of batches, from their characters. */
module BatchShapes {
  import opened Common
  import opened TextOps
  import opened Scanning
  import opened Lexer
  import opened Batches

  // ---------- separator lines ----------

  /** White space, the word GO in either case, white space, and the rest. */
  predicate GoLine(line: string, before: string, word: string, after: string, rest: string) {
    && line == before + word + after + rest
    && (forall i | 0 <= i < |before| :: IsSpace(before[i])) && (forall i | 0 <= i < |after| :: IsSpace(after[i]))
    && |word| == 2 && (word[0] == 'g' || word[0] == 'G') && (word[1] == 'o' || word[1] == 'O')
  }

  predicate EmptyOrComment(rest: string) {
    rest == [] || (|rest| >= 2 && rest[0] == '-' && rest[1] == '-')
  }

  lemma {:induction false} SpaceRunOf(before: string, rest: string)
    requires (forall i | 0 <= i < |before| :: IsSpace(before[i])) && (rest == [] || !IsSpace(rest[0]))
    ensures SpaceRun(before + rest) == |before|
  {
    if before == [] {
      assert before + rest == rest;
    } else {
      assert (before + rest)[1..] == before[1..] + rest;
      SpaceRunOf(before[1..], rest);
    }
  }

  lemma GoLetters(word: string)
    ensures |word| == 2 ==> IsGo(word) == ((word[0] == 'g' || word[0] == 'G') && (word[1] == 'o' || word[1] == 'O'))
    ensures IsGo(word) ==> !IsSpace(word[0])
  {
  }

  lemma GoLineParts(line: string, before: string, word: string, tail: string)
    requires GoLine(line, before, word, [], tail)
    ensures GoFirst(line) && SpaceRun(line) == |before| && line[|before| + 2..] == tail
  {
    GoLetters(word);
    assert line == before + (word + tail) && line[|before|..|before| + 2] == word;
    SpaceRunOf(before, word + tail);
  }

  lemma GoFirstParts(line: string)
    requires GoFirst(line)
    ensures var a := SpaceRun(line); GoLine(line, line[..a], line[a..a + 2], [], line[a + 2..])
  {
    var a := SpaceRun(line);
    GoLetters(line[a..a + 2]);
    assert line == line[..a] + line[a..a + 2] + [] + line[a + 2..];
  }

  lemma GoLineSplit(line: string, before: string, word: string, tail: string)
    requires GoLine(line, before, word, [], tail)
    ensures GoLine(line, before, word, tail[..SpaceRun(tail)], tail[SpaceRun(tail)..])
  {
    var n := SpaceRun(tail);
    assert tail == tail[..n] + tail[n..];
    assert before + word + [] + tail == before + word + tail[..n] + tail[n..];
  }

  lemma DashesStart(rest: string)
    ensures StartsWith(rest, "--") == (|rest| >= 2 && rest[0] == '-' && rest[1] == '-')
  {
    if |rest| >= 2 {
      assert rest[..2] == [rest[0], rest[1]];
    }
  }

  lemma SeparatorTail(line: string, tail: string)
    requires GoFirst(line) && tail == line[SpaceRun(line) + 2..]
    ensures SeparatorLine(line) == EmptyOrComment(tail[SpaceRun(tail)..])
  {
    DashesStart(tail[SpaceRun(tail)..]);
  }

  lemma SeparatorLineHas(line: string) returns (before: string, word: string, after: string, rest: string)
    requires SeparatorLine(line)
    ensures GoLine(line, before, word, after, rest) && EmptyOrComment(rest)
  {
    assert GoFirst(line);
    var a := SpaceRun(line);
    var tail := line[a + 2..];
    GoFirstParts(line);
    before, word, after, rest := line[..a], line[a..a + 2], tail[..SpaceRun(tail)], tail[SpaceRun(tail)..];
    GoLineSplit(line, before, word, tail);
    SeparatorTail(line, tail);
  }

  lemma TailRun(tail: string, after: string, rest: string)
    requires tail == after + rest && (forall i | 0 <= i < |after| :: IsSpace(after[i])) && EmptyOrComment(rest)
    ensures tail[SpaceRun(tail)..] == rest
  {
    SpaceRunOf(after, rest);
  }

  lemma SeparatorLineOf(line: string, before: string, word: string, after: string, rest: string)
    requires GoLine(line, before, word, after, rest) && EmptyOrComment(rest)
    ensures SeparatorLine(line)
  {
    var tail := after + rest;
    assert line == before + word + [] + tail;
    GoLineParts(line, before, word, tail);
    TailRun(tail, after, rest);
    SeparatorTail(line, tail);
  }

  /** A separator line is GO between white space, with at most a line comment behind. */
  lemma SeparatorLineExactly(line: string)
    ensures SeparatorLine(line) == exists before, word, after, rest ::
      GoLine(line, before, word, after, rest) && EmptyOrComment(rest)
  {
    if SeparatorLine(line) {
      var before, word, after, rest := SeparatorLineHas(line);
    } else if before, word, after, rest :| GoLine(line, before, word, after, rest) && EmptyOrComment(rest) {
      SeparatorLineOf(line, before, word, after, rest);
    }
  }

  predicate WordEnds(rest: string) {
    rest == [] || !(IsLetter(rest[0]) || IsDigit(rest[0]) || rest[0] == '_' || rest[0] as int > 127)
  }

  lemma BadTail(line: string, rest: string)
    requires GoFirst(line) && rest == line[SpaceRun(line) + 2..]
    ensures BadSeparatorLine(line) == WordEnds(rest)
  {
  }

  lemma BadLineHas(line: string)
    requires BadSeparatorLine(line)
    ensures exists before, word, rest :: GoLine(line, before, word, [], rest) && WordEnds(rest)
  {
    assert GoFirst(line);
    GoFirstParts(line);
    BadTail(line, line[SpaceRun(line) + 2..]);
  }

  /** A line is unsupported when the word GO begins it, if it is no separator line. */
  lemma BadSeparatorLineExactly(line: string)
    ensures BadSeparatorLine(line) == exists before, word, rest ::
      GoLine(line, before, word, [], rest) && WordEnds(rest)
  {
    if BadSeparatorLine(line) {
      BadLineHas(line);
    } else if before, word, rest :| GoLine(line, before, word, [], rest) && WordEnds(rest) {
      GoLineParts(line, before, word, rest);
      BadTail(line, rest);
    }
  }

  // ---------- unsupported scripts ----------

  /** A script is unsupported when a GO token stands on an unsupported line. */
  lemma {:induction false} UnsupportedExactly(sep: Mark, bad: Mark, ts: seq<Token>)
    ensures Separators(sep, bad, ts).Err? == exists i :: 0 <= i < |ts| && !sep(ts[i]) && bad(ts[i])
    ensures Separators(sep, bad, ts).Ok? ==>
      forall t :: t in Separators(sep, bad, ts).value <==> t in ts && sep(t)
  {
    if ts != [] {
      UnsupportedExactly(sep, bad, ts[1..]);
      assert forall i | 1 <= i < |ts| :: ts[i] == ts[1..][i - 1];
      assert forall t :: t in ts <==> t == ts[0] || t in ts[1..];
    }
  }

  // ---------- batches ----------

  /** A batch has no outer white space and holds at least one token. */
  ghost predicate Proper(f: Stepper, batch: string) {
    && batch != [] && !IsSpace(batch[0]) && !IsSpace(batch[|batch| - 1])
    && Lex(f, batch).Ok? && Lex(f, batch).value != []
  }

  lemma {:induction false} StripLeftStops(s: string)
    ensures StripLeft(s) != [] ==> !IsSpace(StripLeft(s)[0])
  {
    if s != [] && IsSpace(s[0]) { StripLeftStops(s[1..]); }
  }

  lemma {:induction false} StripRightStops(s: string)
    ensures StripRight(s) != [] ==> !IsSpace(StripRight(s)[|StripRight(s)| - 1]) && StripRight(s)[0] == s[0]
  {
    if s != [] && IsSpace(s[|s| - 1]) { StripRightStops(s[..|s| - 1]); }
  }

  lemma BatchIsProper(f: Stepper, part: string)
    requires Batch(f, part).Ok? && Lex(f, []) == Ok([])
    ensures forall b | b in Batch(f, part).value :: Proper(f, b)
  {
    StripLeftStops(part);
    StripRightStops(StripLeft(part));
  }

  lemma {:induction false} PartsAreProper(f: Stepper, sql: string, start: nat, seps: seq<Token>)
    requires start <= |sql| && TokensFit(sql, seps) && Parts(f, sql, start, seps).Ok? && Lex(f, []) == Ok([])
    ensures forall b | b in Parts(f, sql, start, seps).value :: Proper(f, b)
    decreases |seps|
  {
    if seps == [] {
      BatchIsProper(f, sql[start..]);
    } else {
      BatchIsProper(f, Slice(sql, start, LineStart(sql, seps[0].start)));
      PartsAreProper(f, sql, LineEnd(sql, seps[0].end), seps[1..]);
    }
  }

  /** No batch is empty, consists of comments only or has outer white space. */
  lemma BatchesAreProper(sql: string)
    requires Split(LexStep, sql).Ok?
    ensures forall b | b in Split(LexStep, sql).value :: Proper(LexStep, b)
  {
    ScanFits(LexStep, sql);
    var ts := Scan(LexStep, sql, 0).value;
    PartsAreProper(LexStep, sql, 0, Separators(SeparatorOf(sql), UnsupportedOf(sql), ts).value);
  }
}
