/** Printing SQL text so that the tokenizer reads back what was printed. */
module Quoting {
  import opened Common
  import opened TextOps
  import opened Scanning
  import opened Lexer

  function Q(name: string): string {
    "[" + Doubled(name, ']') + "]"
  }

  function Lit(value: string): string {
    "N'" + Doubled(value, '\'') + "'"
  }

  function Ident(t: Lexeme): string {
    if t.kind == IdentifierToken && |t.value| >= 2 then Undoubled(t.value[1..|t.value| - 1], ']') else t.value
  }

  function Unstring(t: Lexeme): string {
    var text := if t.value != [] && Upper(t.value[0]) == 'N' then t.value[1..] else t.value;
    if |text| >= 2 then Undoubled(text[1..|text| - 1], '\'') else []
  }

  // ---------- quoted text closes at its own end ----------

  lemma {:induction false} DoubledCloses(s: string, c: char, rest: string)
    requires rest == [] || rest[0] != c
    ensures CloseQuote(Doubled(s, c) + [c] + rest, c) == Some(|Doubled(s, c)| + 1)
  {
    var text := Doubled(s, c) + [c] + rest;
    if s == [] {
      assert text == [c] + rest;
      assert text[1..] == rest;
    } else {
      DoubledCons(s, c);
      DoubledCloses(s[1..], c, rest);
      var tail := Doubled(s[1..], c) + [c] + rest;
      if s[0] == c {
        assert text[2..] == tail && text[0] == c && text[1] == c;
      } else {
        assert text[1..] == tail && text[0] == s[0];
      }
    }
  }

  lemma NameStep(name: string, rest: string)
    requires rest == [] || rest[0] != ']'
    ensures LexStep(Q(name) + rest) == Emit(|Q(name)|, IdentifierToken)
  {
    DoubledCloses(name, ']', rest);
    var text := Q(name) + rest;
    assert text[0] == '[';
    assert text[1..] == Doubled(name, ']') + [']'] + rest;
    BracketStep(text, |Q(name)| - 1);
  }

  lemma BracketStep(text: string, n: nat)
    requires text != [] && text[0] == '[' && CloseQuote(text[1..], ']') == Some(n)
    ensures LexStep(text) == Emit(n + 1, IdentifierToken)
  {
    assert !IsSpace('[') && |text| >= 2 ==> text[..2] != "--" && text[..2] != "/*" by {
      if |text| >= 2 { assert text[..2][0] == '['; }
    }
  }

  lemma NationalStep(text: string, n: nat)
    requires |text| >= 2 && text[0] == 'N' && text[1] == '\'' && CloseQuote(text[2..], '\'') == Some(n)
    ensures LexStep(text) == Emit(n + 2, StringToken)
  {
  }

  lemma LitStep(value: string, rest: string)
    requires rest == [] || rest[0] != '\''
    ensures LexStep(Lit(value) + rest) == Emit(|Lit(value)|, StringToken)
  {
    DoubledCloses(value, '\'', rest);
    var text := Lit(value) + rest;
    assert text[0] == 'N' && text[1] == '\'';
    assert text[2..] == Doubled(value, '\'') + ['\''] + rest;
    NationalStep(text, |Doubled(value, '\'')| + 1);
  }

  lemma IdentQ(name: string)
    ensures Ident(Lexeme(Q(name), IdentifierToken)) == name
  {
    assert Q(name)[1..|Q(name)| - 1] == Doubled(name, ']');
    UndoubledDoubled(name, ']');
  }

  lemma UnstringLit(value: string)
    ensures Unstring(Lexeme(Lit(value), StringToken)) == value
  {
    var text := Lit(value)[1..];
    assert text == "'" + Doubled(value, '\'') + "'";
    assert text[1..|text| - 1] == Doubled(value, '\'');
    UndoubledDoubled(value, '\'');
  }

  /** The tokens of a quoted name are that one identifier, which reads back as
    * the name. */
  lemma QuotedNameIsOneToken(name: string)
    ensures Scan(LexStep, Q(name), 0) == Ok([Token(Q(name), 0, |Q(name)|, IdentifierToken)])
    ensures Ident(Lexeme(Q(name), IdentifierToken)) == name
  {
    NameStep(name, []);
    IdentQ(name);
    assert Q(name) + [] == Q(name);
    WholeToken(LexStep, Q(name), IdentifierToken);
  }

  /** The tokens of a literal are that one string, which reads back as the value. */
  lemma LiteralIsOneToken(value: string)
    ensures Scan(LexStep, Lit(value), 0) == Ok([Token(Lit(value), 0, |Lit(value)|, StringToken)])
    ensures Unstring(Lexeme(Lit(value), StringToken)) == value
  {
    LitStep(value, []);
    UnstringLit(value);
    assert Lit(value) + [] == Lit(value);
    WholeToken(LexStep, Lit(value), StringToken);
  }

  // ---------- printing a whole statement ----------

  /** A printed piece: a word, a punctuation mark, a literal, a bracketed name,
    * or a white-space character. */
  datatype Piece = Word(w: string) | Punct(c: char) | Literal(value: string) | Name(name: string) | Space(c: char)

  predicate AllWordParts(w: string) {
    forall i | 0 <= i < |w| :: IsWordPart(w[i])
  }

  predicate PieceOk(p: Piece) {
    match p
    case Word(w) => w != [] && IsWordStart(w[0]) && AllWordParts(w[1..])
    case Punct(c) => !IsSpace(c) && !IsWordPart(c) && c !in {'-', '/', '\'', '[', ']', '"'}
    case Space(c) => IsSpace(c)
    case _ => true
  }

  /** A word runs on into a following word or literal. */
  predicate Separated(p: Piece, next: Piece) {
    p.Word? ==> !next.Word? && !next.Literal?
  }

  predicate Printable(ps: seq<Piece>) {
    && (forall i | 0 <= i < |ps| :: PieceOk(ps[i]))
    && (forall i, j | 0 <= i < |ps| && j == i + 1 < |ps| :: Separated(ps[i], ps[j]))
  }

  function Text(p: Piece): string {
    match p
    case Word(w) => w
    case Punct(c) => [c]
    case Literal(value) => Lit(value)
    case Name(name) => Q(name)
    case Space(c) => [c]
  }

  function Print(ps: seq<Piece>): string {
    if ps == [] then [] else Text(ps[0]) + Print(ps[1..])
  }

  function PieceTokens(p: Piece): seq<Lexeme> {
    match p
    case Word(w) => [Lexeme(w, PlainToken)]
    case Punct(c) => [Lexeme([c], PlainToken)]
    case Literal(value) => [Lexeme(Lit(value), StringToken)]
    case Name(name) => [Lexeme(Q(name), IdentifierToken)]
    case Space(_) => []
  }

  function Printed(ps: seq<Piece>): seq<Lexeme> {
    if ps == [] then [] else PieceTokens(ps[0]) + Printed(ps[1..])
  }

  lemma {:induction false} WordRunOf(w: string, rest: string)
    requires AllWordParts(w) && (rest == [] || !IsWordPart(rest[0]))
    ensures WordRun(w + rest) == |w|
  {
    if w == [] {
      assert w + rest == rest;
    } else {
      WordRunOf(w[1..], rest);
      assert (w + rest)[1..] == w[1..] + rest;
    }
  }

  lemma WordStartStep(s: string)
    requires s != [] && IsWordStart(s[0]) && (|s| > 1 ==> s[1] != '\'')
    ensures LexStep(s) == Emit(1 + WordRun(s[1..]), PlainToken)
  {
  }

  lemma WordStep(w: string, rest: string)
    requires PieceOk(Word(w)) && (rest == [] || (!IsWordPart(rest[0]) && rest[0] != '\''))
    ensures LexStep(w + rest) == Emit(|w|, PlainToken)
  {
    var text := w + rest;
    assert text[1..] == w[1..] + rest;
    WordRunOf(w[1..], rest);
    if |text| > 1 {
      assert text[1] != '\'' by {
        if |w| > 1 { assert text[1] == w[1..][0]; } else { assert text[1] == rest[0]; }
      }
    }
    WordStartStep(text);
  }

  lemma PunctStep(c: char, rest: string)
    requires PieceOk(Punct(c))
    ensures LexStep([c] + rest) == Emit(1, PlainToken)
  {
    assert ([c] + rest)[0] == c;
  }

  /** Of a printable text the first character does not run on from a piece it
    * is separated from. */
  lemma FirstCharacter(ps: seq<Piece>)
    requires Printable(ps) && ps != []
    ensures Print(ps) != [] && Print(ps)[0] != ']' && Print(ps)[0] != '\''
    ensures !ps[0].Word? && !ps[0].Literal? ==> !IsWordPart(Print(ps)[0])
  {
    assert Text(ps[0]) != [] && Print(ps)[0] == Text(ps[0])[0];
  }

  lemma PieceStep(ps: seq<Piece>)
    requires Printable(ps) && ps != []
    ensures var n := |Text(ps[0])|;
      LexStep(Print(ps)) == match ps[0]
        case Literal(_) => Emit(n, StringToken)
        case Name(_) => Emit(n, IdentifierToken)
        case Space(_) => Skip(n)
        case _ => Emit(n, PlainToken)
  {
    var rest := Print(ps[1..]);
    if |ps| > 1 {
      FirstCharacter(ps[1..]);
    }
    match ps[0]
    case Word(w) => WordStep(w, rest);
    case Punct(c) => PunctStep(c, rest);
    case Literal(value) => LitStep(value, rest);
    case Name(name) => NameStep(name, rest);
    case Space(c) => assert Print(ps)[0] == c;
  }

  /** Printer and tokenizer are inverse: the tokens of a printable text are
    * exactly the printed pieces, white space aside. */
  lemma {:induction false} PrintedTextReadsBack(ps: seq<Piece>)
    requires Printable(ps)
    ensures Lex(LexStep, Print(ps)) == Ok(Printed(ps))
  {
    if ps != [] {
      PieceStep(ps);
      PrintedTextReadsBack(ps[1..]);
      var text, rest := Text(ps[0]), Print(ps[1..]);
      match ps[0]
      case Word(_) => LexEmits(LexStep, text, rest, PlainToken);
      case Punct(_) => LexEmits(LexStep, text, rest, PlainToken);
      case Literal(_) => LexEmits(LexStep, text, rest, StringToken);
      case Name(_) => LexEmits(LexStep, text, rest, IdentifierToken);
      case Space(_) =>
        LexSkips(LexStep, text, rest);
        assert [] + Printed(ps[1..]) == Printed(ps[1..]);
    }
  }

  // ---------- the invocation wrapper ----------

  const SETTINGS :=
    "; SET LOCK_TIMEOUT 10000; SET ANSI_NULLS ON; SET QUOTED_IDENTIFIER ON; SET ANSI_PADDING ON; "
    + "SET ANSI_WARNINGS ON; SET ARITHABORT ON; SET CONCAT_NULL_YIELDS_NULL ON; SET NUMERIC_ROUNDABORT OFF; "
    + "EXEC [sys].[sp_executesql] @InnerSql;"

  function SetPieces(database: string): seq<Piece> {
    [Word("SET"), Space(' '), Word("@DeploymentSql"), Punct('='), Literal("USE "), Punct('+'),
     Word("QUOTENAME"), Punct('('), Word(database), Punct(')'), Punct('+'), Literal(SETTINGS), Punct(';'), Space('\n')]
  }

  const EXEC_PIECES: seq<Piece> :=
    [Word("EXEC"), Space(' '), Name("sys"), Punct('.'), Name("sp_executesql"), Space(' '),
     Word("@DeploymentSql"), Punct(','), Literal("@InnerSql nvarchar(max)"), Punct(','), Word("@InnerSql"), Punct('=')]

  /** Everything before the statement. */
  function Wrapper(database: string): seq<Piece> {
    SetPieces(database) + EXEC_PIECES
  }

  function Payload(statement: string): seq<Piece> {
    [Literal(statement), Punct(';'), Space('\n')]
  }

  function Comment(title: string): string {
    if title == [] then [] else "-- " + title + "\n"
  }

  function Invoke(statement: string, database: string, title: string): string {
    Comment(title) + Print(Wrapper(database) + Payload(statement))
  }

  lemma JoinedTokens(a: seq<Lexeme>, b: seq<Lexeme>, c: seq<Lexeme>)
    ensures a + (b + c) == a + b + c
  {
  }

  lemma {:induction false} PrintedJoin(a: seq<Piece>, b: seq<Piece>)
    ensures Printed(a + b) == Printed(a) + Printed(b)
  {
    if a == [] {
      assert a + b == b;
    } else {
      PrintedJoin(a[1..], b);
      assert (a + b)[1..] == a[1..] + b;
      JoinedTokens(PieceTokens(a[0]), Printed(a[1..]), Printed(b));
    }
  }

  lemma {:induction false} TitleSkipped(title: string, rest: string)
    requires '\n' !in title
    ensures Lex(LexStep, Comment(title) + rest) == Lex(LexStep, rest)
  {
    var text := Comment(title) + rest;
    if title == [] {
      assert text == rest;
    } else {
      var k := |title| + 3;
      assert text[..2] == "--" && text[0] == '-';
      assert text[k] == '\n' && forall j | 0 <= j < k :: text[j] != '\n';
      LineFeedAt(text, k);
      assert LexStep(text) == Skip(k + 1);
      assert text[k + 1..] == rest;
    }
  }

  lemma KeywordsPrintable()
    ensures PieceOk(Word("SET")) && PieceOk(Word("EXEC")) && PieceOk(Word("QUOTENAME"))
  {
    assert "SET"[1..] == "ET" && "EXEC"[1..] == "XEC" && "QUOTENAME"[1..] == "UOTENAME";
  }

  lemma VariablesPrintable()
    ensures PieceOk(Word("@InnerSql")) && PieceOk(Word("@DeploymentSql"))
  {
    assert "@InnerSql"[1..] == "InnerSql" && "@DeploymentSql"[1..] == "DeploymentSql";
  }

  lemma SetPrintable(database: string)
    requires PieceOk(Word(database))
    ensures Printable(SetPieces(database))
  {
    var ps := SetPieces(database);
    KeywordsPrintable();
    VariablesPrintable();
    forall i | 0 <= i < |ps| ensures PieceOk(ps[i]) {
      if i == 0 || i == 2 || i == 6 || i == 8 { assert ps[i].Word?; } else { assert !ps[i].Word?; }
    }
    forall i, j | 0 <= i < |ps| && j == i + 1 < |ps| ensures Separated(ps[i], ps[j]) {
      if i == 0 || i == 2 || i == 6 || i == 8 { assert !ps[j].Word? && !ps[j].Literal?; } else { assert !ps[i].Word?; }
    }
  }

  lemma ExecPrintable()
    ensures Printable(EXEC_PIECES)
  {
    var ps := EXEC_PIECES;
    KeywordsPrintable();
    VariablesPrintable();
    forall i | 0 <= i < |ps| ensures PieceOk(ps[i]) {
      if i == 0 || i == 6 || i == 10 { assert ps[i].Word?; } else { assert !ps[i].Word?; }
    }
    forall i, j | 0 <= i < |ps| && j == i + 1 < |ps| ensures Separated(ps[i], ps[j]) {
      if i == 0 || i == 6 || i == 10 { assert !ps[j].Word? && !ps[j].Literal?; } else { assert !ps[i].Word?; }
    }
  }

  lemma PrintableJoin(a: seq<Piece>, b: seq<Piece>)
    requires Printable(a) && Printable(b) && (a != [] && b != [] ==> Separated(a[|a| - 1], b[0]))
    ensures Printable(a + b)
  {
    var ps := a + b;
    forall i, j | 0 <= i < |ps| && j == i + 1 < |ps| ensures Separated(ps[i], ps[j]) {
      if j < |a| { assert Separated(a[i], a[j]); }
      if i >= |a| { assert Separated(b[i - |a|], b[j - |a|]); }
    }
  }

  lemma InvokePrintable(statement: string, database: string)
    requires PieceOk(Word(database))
    ensures Printable(Wrapper(database) + Payload(statement))
  {
    SetPrintable(database);
    ExecPrintable();
    PrintableJoin(SetPieces(database), EXEC_PIECES);
    PrintableJoin(Wrapper(database), Payload(statement));
  }

  /** Whatever the statement contains, the wrapper's tokens do not depend on it:
    * they are followed by one string token that reads back as the statement, and
    * the closing semicolon. */
  lemma InvokedStatementIsRecovered(statement: string, database: string, title: string)
    requires PieceOk(Word(database)) && '\n' !in title
    ensures Lex(LexStep, Invoke(statement, database, title))
         == Ok(Printed(Wrapper(database)) + [Lexeme(Lit(statement), StringToken), Lexeme(";", PlainToken)])
    ensures Unstring(Lexeme(Lit(statement), StringToken)) == statement
  {
    var ps := Wrapper(database) + Payload(statement);
    TitleSkipped(title, Print(ps));
    InvokePrintable(statement, database);
    PrintedTextReadsBack(ps);
    PrintedJoin(Wrapper(database), Payload(statement));
    PayloadTokens(statement);
    UnstringLit(statement);
  }

  lemma PayloadTokens(statement: string)
    ensures Printed(Payload(statement)) == [Lexeme(Lit(statement), StringToken), Lexeme(";", PlainToken)]
  {
    var ps := Payload(statement);
    assert ps[1..] == [Punct(';'), Space('\n')] && ps[1..][1..] == [Space('\n')] && ps[1..][1..][1..] == [];
    assert Printed(ps[1..][1..]) == [];
    assert Printed(ps[1..]) == [Lexeme(";", PlainToken)];
  }

  // ---------- nesting ----------

  lemma LiteralLexes(value: string)
    ensures Lex(LexStep, Lit(value)) == Ok([Lexeme(Lit(value), StringToken)])
    ensures Unstring(Lexeme(Lit(value), StringToken)) == value
  {
    LiteralIsOneToken(value);
    ScanIsLex(LexStep, Lit(value), 0);
    assert Lit(value)[0..] == Lit(value);
    var token := Token(Lit(value), 0, |Lit(value)|, StringToken);
    assert Values([token]) == [Lexeme(Lit(value), StringToken)];
  }

  function LitTimes(value: string, n: nat): string {
    if n == 0 then value else Lit(LitTimes(value, n - 1))
  }

  /** Undoes `n` levels: each level must be exactly one string token. */
  function UnlitTimes(f: Stepper, text: string, n: nat): Option<string>
    decreases n
  {
    if n == 0 then Some(text)
    else
      match Lex(f, text)
      case Ok(ts) => if |ts| == 1 && ts[0].kind == StringToken then UnlitTimes(f, Unstring(ts[0]), n - 1) else None
      case Err(_) => None
  }

  /** The step function makes one string token of the literal. */
  predicate ReadsLiteral(f: Stepper, value: string) {
    && Lex(f, Lit(value)) == Ok([Lexeme(Lit(value), StringToken)])
    && Unstring(Lexeme(Lit(value), StringToken)) == value
  }

  ghost predicate ReadsLiterals(f: Stepper) {
    forall value :: ReadsLiteral(f, value)
  }

  lemma UnlitOnce(f: Stepper, value: string, n: nat)
    requires ReadsLiterals(f)
    ensures UnlitTimes(f, Lit(value), n + 1) == UnlitTimes(f, value, n)
  {
    assert ReadsLiteral(f, value);
  }

  lemma {:induction false} Nested(f: Stepper, value: string, text: string, n: nat)
    requires ReadsLiterals(f) && text == LitTimes(value, n)
    ensures UnlitTimes(f, text, n) == Some(value)
    decreases n
  {
    if n > 0 {
      var inner := LitTimes(value, n - 1);
      assert text == Lit(inner);
      Nested(f, value, inner, n - 1);
      UnlitOnce(f, inner, n - 1);
    }
  }

  /** Quoting and tokenizing are inverse at any nesting depth. */
  lemma NestedLiterals(value: string, n: nat)
    ensures UnlitTimes(LexStep, LitTimes(value, n), n) == Some(value)
  {
    forall v ensures ReadsLiteral(LexStep, v) {
      LiteralLexes(v);
    }
    Nested(LexStep, value, LitTimes(value, n), n);
  }
}
