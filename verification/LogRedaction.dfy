/** Redacting a secret from streams that arrive in chunks. */
module LogRedaction {
  import opened Common
  import opened TextOps

  const MARK := "[REDACTED]"

  function Redact(text: string, secret: string): string {
    if secret == [] then text else Replace(text, secret, MARK)
  }

  predicate OccursAt(text: string, pattern: string, i: nat) {
    i + |pattern| <= |text| && text[i..i + |pattern|] == pattern
  }

  /** The last occurrence that starts at `low` or later. */
  function LastOccurrence(text: string, pattern: string, low: nat): (r: Option<nat>)
    ensures r.Some? ==> low <= r.value && OccursAt(text, pattern, r.value)
    ensures forall i | low <= i && OccursAt(text, pattern, i) :: r.Some? && i <= r.value
  {
    LastFrom(text, pattern, low, |text|)
  }

  function LastFrom(text: string, pattern: string, low: nat, high: nat): (r: Option<nat>)
    ensures r.Some? ==> low <= r.value <= high && OccursAt(text, pattern, r.value)
    ensures forall i | low <= i <= high && OccursAt(text, pattern, i) :: r.Some? && i <= r.value
  {
    if high < low then None
    else if OccursAt(text, pattern, high) then Some(high)
    else if high == 0 then None
    else LastFrom(text, pattern, low, high - 1)
  }

  /** How much of the held text may be emitted before the stream ends. */
  function Cut(value: string, secret: string): (e: nat)
    ensures e <= |value|
  {
    if secret == [] then |value|
    else CutBefore(value, secret, Max(0, |value| - |secret| + 1))
  }

  /** An occurrence that spans `end` pulls the cut back to where it starts. */
  function CutBefore(value: string, secret: string, end: nat): (e: nat)
    requires secret != [] && end <= |value|
    ensures e <= end
    ensures e == end || (e < end < e + |secret| && OccursAt(value, secret, e))
  {
    match LastOccurrence(value, secret, Max(0, end - |secret| + 1))
    case Some(start) => if start < end < start + |secret| then start else end
    case None => end
  }

  /** The secret overlaps itself when shifted by `k`. */
  predicate Border(secret: string, k: nat) {
    0 < k < |secret| && secret[k..] == secret[..|secret| - k]
  }

  /** No proper prefix of the secret is also a suffix. */
  ghost predicate BorderFree(secret: string) {
    forall k: nat :: !Border(secret, k)
  }

  // ---------- cutting a text between occurrences ----------

  /** No occurrence begins in `a` and ends in `b`. */
  ghost predicate NoStraddle(a: string, b: string, secret: string) {
    forall i | 0 <= i < |a| && OccursAt(a + b, secret, i) :: i + |secret| <= |a|
  }

  lemma NoStraddleDrop(a: string, b: string, secret: string, k: nat)
    requires NoStraddle(a, b, secret) && k <= |a|
    ensures NoStraddle(a[k..], b, secret)
  {
    var rest := a[k..];
    assert (a + b)[k..] == rest + b;
    forall i | 0 <= i < |rest| && OccursAt(rest + b, secret, i) ensures i + |secret| <= |rest| {
      assert (a + b)[i + k..i + k + |secret|] == (rest + b)[i..i + |secret|];
      assert OccursAt(a + b, secret, i + k);
    }
  }

  lemma {:induction false} ReplaceSplits(a: string, b: string, secret: string, mark: string)
    requires secret != [] && NoStraddle(a, b, secret)
    ensures Replace(a + b, secret, mark) == Replace(a, secret, mark) + Replace(b, secret, mark)
    decreases |a|
  {
    var text, n := a + b, |secret|;
    if a == [] {
      assert text == b;
    } else if StartsWith(text, secret) {
      assert OccursAt(text, secret, 0);
      assert a[..n] == text[..n] && text[n..] == a[n..] + b;
      NoStraddleDrop(a, b, secret, n);
      ReplaceSplits(a[n..], b, secret, mark);
    } else {
      assert n <= |a| ==> text[..n] == a[..n];
      assert text[1..] == a[1..] + b;
      NoStraddleDrop(a, b, secret, 1);
      ReplaceSplits(a[1..], b, secret, mark);
    }
  }

  lemma RedactSplits(a: string, b: string, secret: string)
    requires secret != [] && NoStraddle(a, b, secret)
    ensures Redact(a + b, secret) == Redact(a, secret) + Redact(b, secret)
  {
    ReplaceSplits(a, b, secret, MARK);
  }

  /** The cut between `done` and `tail` is safe whatever text follows. */
  ghost predicate SafeCut(done: string, tail: string, secret: string) {
    done == [] || secret == [] || (|tail| >= |secret| - 1 && NoStraddle(done, tail, secret))
  }

  lemma SafeForever(done: string, tail: string, more: string, secret: string)
    requires SafeCut(done, tail, secret) && secret != []
    ensures NoStraddle(done, tail + more, secret)
  {
    if done != [] {
      var known, text := done + tail, done + (tail + more);
      forall i | 0 <= i < |done| && OccursAt(text, secret, i) ensures i + |secret| <= |done| {
        assert text[i..i + |secret|] == known[i..i + |secret|];
        assert OccursAt(known, secret, i);
      }
    }
  }

  lemma NoStraddlePrefix(a: string, b: string, k: nat, secret: string)
    requires NoStraddle(a, b, secret) && k <= |b|
    ensures NoStraddle(a, b[..k], secret)
  {
    var part, text := a + b[..k], a + b;
    forall i | 0 <= i < |a| && OccursAt(part, secret, i) ensures i + |secret| <= |a| {
      assert part[i..i + |secret|] == text[i..i + |secret|];
      assert OccursAt(text, secret, i);
    }
  }

  /** Two overlapping occurrences give the secret a border. */
  lemma OverlapIsBorder(text: string, secret: string, i: nat, j: nat)
    requires i < j < i + |secret| && OccursAt(text, secret, i) && OccursAt(text, secret, j)
    ensures !BorderFree(secret)
  {
    var k, n := j - i, |secret|;
    assert secret[k..] == text[i..i + n][k..] == text[j..i + n];
    assert secret[..n - k] == text[j..j + n][..n - k] == text[j..i + n];
    assert Border(secret, k);
  }

  /** The writer's cut never falls inside an occurrence of a border-free secret. */
  lemma CutAvoidsOccurrences(value: string, secret: string, j: nat)
    requires secret != [] && BorderFree(secret) && OccursAt(value, secret, j) && j < Cut(value, secret)
    ensures j + |secret| <= Cut(value, secret)
  {
    var n := |secret|;
    var end := |value| - n + 1;
    var last := LastOccurrence(value, secret, Max(0, end - n + 1));
    if last.Some? && j < last.value < j + n {
      OverlapIsBorder(value, secret, j, last.value);
    }
  }

  lemma CutSize(value: string, secret: string)
    requires secret != []
    ensures Cut(value, secret) > 0 ==> |value| - Cut(value, secret) >= |secret| - 1
  {
  }

  /** The cut inside the new text is safe for everything received so far. */
  lemma CutStaysSafe(done: string, value: string, secret: string)
    requires secret != [] && NoStraddle(done, value, secret) && BorderFree(secret)
    ensures var e := Cut(value, secret); SafeCut(done + value[..e], value[e..], secret) || (e == 0 && done != [])
    ensures NoStraddle(done + value[..Cut(value, secret)], value[Cut(value, secret)..], secret)
  {
    var e := Cut(value, secret);
    CutSize(value, secret);
    var left, right := done + value[..e], value[e..];
    assert left + right == done + value;
    forall i | 0 <= i < |left| && OccursAt(left + right, secret, i) ensures i + |secret| <= |left| {
      if i < |done| {
        assert OccursAt(done + value, secret, i);
      } else {
        var j := i - |done|;
        assert (done + value)[i..i + |secret|] == value[j..j + |secret|];
        CutAvoidsOccurrences(value, secret, j);
      }
    }
  }

  /** One chunk: the new cut is safe again, and what is emitted continues the
    * redaction of everything received. */
  lemma ChunkKeepsRedaction(done: string, tail: string, text: string, secret: string)
    requires SafeCut(done, tail, secret) && (secret == [] || BorderFree(secret))
    ensures var value := tail + text; var e := Cut(value, secret);
      && SafeCut(done + value[..e], value[e..], secret)
      && Redact(done + value[..e], secret) == Redact(done, secret) + Redact(value[..e], secret)
  {
    var value := tail + text;
    var e := Cut(value, secret);
    if secret != [] {
      SafeForever(done, tail, text, secret);
      NoStraddlePrefix(done, value, e, secret);
      RedactSplits(done, value[..e], secret);
      CutStaysSafe(done, value, secret);
    }
  }

  /** The last write: nothing is held back. */
  lemma LastChunkKeepsRedaction(done: string, tail: string, text: string, secret: string)
    requires SafeCut(done, tail, secret)
    ensures Redact(done + (tail + text), secret) == Redact(done, secret) + Redact(tail + text, secret)
  {
    if secret != [] {
      SafeForever(done, tail, text, secret);
      RedactSplits(done, tail + text, secret);
    }
  }

  // ---------- what redaction removes ----------

  ghost predicate Occurs(text: string, pattern: string) {
    exists i: nat :: OccursAt(text, pattern, i)
  }

  /** The pieces with a separator between each and the next. */
  function Joined(pieces: seq<string>, glue: string): string
    requires pieces != []
  {
    if |pieces| == 1 then pieces[0] else pieces[0] + (glue + Joined(pieces[1..], glue))
  }

  ghost predicate NoneBefore(text: string, pattern: string, n: nat) {
    forall i: nat | OccursAt(text, pattern, i) :: n <= i
  }

  /** Each piece ends where the secret first occurs in what is left of the text; the
    * last one is followed by no occurrence. */
  ghost predicate CutAtLeftmost(pieces: seq<string>, secret: string)
    requires pieces != []
    decreases |pieces|
  {
    && NoneBefore(Joined(pieces, secret), secret, |pieces[0]|)
    && (|pieces| > 1 ==> CutAtLeftmost(pieces[1..], secret))
  }

  /** `out` is the text with the mark in the place of every occurrence of the secret,
    * taken from the left. */
  ghost predicate Redacts(text: string, secret: string, out: string) {
    if secret == [] then out == text
    else exists pieces :: MarkedPieces(pieces, text, secret, out)
  }

  ghost predicate MarkedPieces(pieces: seq<string>, text: string, secret: string, out: string) {
    && pieces != [] && CutAtLeftmost(pieces, secret)
    && text == Joined(pieces, secret) && out == Joined(pieces, MARK)
  }

  lemma {:induction false} AbsentUnchanged(text: string, secret: string, mark: string)
    requires secret != [] && !Occurs(text, secret)
    ensures Replace(text, secret, mark) == text
  {
    if text != [] {
      assert !OccursAt(text, secret, 0);
      forall i: nat | OccursAt(text[1..], secret, i) ensures false {
        assert text[1..][i..i + |secret|] == text[i + 1..i + 1 + |secret|];
        assert OccursAt(text, secret, i + 1);
      }
      AbsentUnchanged(text[1..], secret, mark);
      assert text == [text[0]] + text[1..];
    }
  }

  lemma PieceHoldsNone(first: string, rest: string, secret: string)
    requires secret != [] && NoneBefore(first + rest, secret, |first|)
    ensures !Occurs(first, secret) && NoStraddle(first, rest, secret)
  {
    forall i: nat | OccursAt(first, secret, i) ensures false {
      assert (first + rest)[i..i + |secret|] == first[i..i + |secret|];
      assert OccursAt(first + rest, secret, i);
    }
  }

  lemma {:induction false} LeftmostReplaced(pieces: seq<string>, secret: string, mark: string)
    requires secret != [] && pieces != [] && CutAtLeftmost(pieces, secret)
    ensures Replace(Joined(pieces, secret), secret, mark) == Joined(pieces, mark)
    decreases |pieces|
  {
    var first := pieces[0];
    if |pieces| == 1 {
      assert first + [] == first == Joined(pieces, secret);
      PieceHoldsNone(first, [], secret);
      AbsentUnchanged(first, secret, mark);
    } else {
      var rest := Joined(pieces[1..], secret);
      LeftmostReplaced(pieces[1..], secret, mark);
      assert Joined(pieces, secret) == first + (secret + rest);
      PieceHoldsNone(first, secret + rest, secret);
      ReplaceSplits(first, secret + rest, secret, mark);
      AbsentUnchanged(first, secret, mark);
      assert (secret + rest)[..|secret|] == secret && (secret + rest)[|secret|..] == rest;
      ReplaceFromStart(secret + rest, secret, mark);
    }
  }

  lemma {:induction false} FirstOccurrence(text: string, secret: string, i: nat) returns (first: nat)
    requires OccursAt(text, secret, i)
    ensures OccursAt(text, secret, first) && forall j: nat | OccursAt(text, secret, j) :: first <= j
    decreases i
  {
    if j: nat :| j < i && OccursAt(text, secret, j) {
      first := FirstOccurrence(text, secret, j);
    } else {
      first := i;
    }
  }

  lemma {:induction false} CutIntoPieces(text: string, secret: string) returns (pieces: seq<string>)
    requires secret != []
    ensures pieces != [] && CutAtLeftmost(pieces, secret) && Joined(pieces, secret) == text
    decreases |text|
  {
    if k: nat :| OccursAt(text, secret, k) {
      var i := FirstOccurrence(text, secret, k);
      var rest := CutIntoPieces(text[i + |secret|..], secret);
      pieces := [text[..i]] + rest;
      assert pieces[1..] == rest && text == text[..i] + (secret + text[i + |secret|..]);
    } else {
      pieces := [text];
    }
  }

  /** Redaction puts the mark in the place of every occurrence of the secret, taken
    * from the left, and changes nothing else. */
  lemma RedactMeans(text: string, secret: string)
    ensures forall out :: Redacts(text, secret, out) <==> out == Redact(text, secret)
  {
    if secret != [] {
      var pieces := CutIntoPieces(text, secret);
      LeftmostReplaced(pieces, secret, MARK);
      assert MarkedPieces(pieces, text, secret, Redact(text, secret));
      forall out | Redacts(text, secret, out) ensures out == Redact(text, secret) {
        var cut :| MarkedPieces(cut, text, secret, out);
        LeftmostReplaced(cut, secret, MARK);
      }
    }
  }

  predicate Apart(a: string, b: string) {
    forall c | c in a :: c !in b
  }

  lemma OverMark(first: string, mark: string, rest: string, secret: string, i: nat)
    requires secret != [] && mark != [] && OccursAt(first + (mark + rest), secret, i)
    requires i < |first| + |mark| && |first| < i + |secret|
    ensures !Apart(secret, mark)
  {
    var text, k := first + (mark + rest), Max(i, |first|);
    assert text[k] == mark[k - |first|] && text[i..i + |secret|][k - i] == text[k];
    assert mark[k - |first|] in mark && secret[k - i] in secret;
  }

  lemma ApartWindow(first: string, mark: string, rest: string, secret: string, i: nat)
    requires secret != [] && mark != [] && Apart(secret, mark) && OccursAt(first + (mark + rest), secret, i)
    ensures OccursAt(first, secret, i) || (|first| + |mark| <= i && OccursAt(rest, secret, i - |first| - |mark|))
  {
    var text, n := first + (mark + rest), |secret|;
    if i + n <= |first| {
      assert first[i..i + n] == text[i..i + n];
    } else if i < |first| + |mark| {
      OverMark(first, mark, rest, secret, i);
    } else {
      var j := i - |first| - |mark|;
      assert rest[j..j + n] == text[i..i + n];
    }
  }

  lemma {:induction false} NothingLeft(pieces: seq<string>, secret: string, mark: string)
    requires secret != [] && pieces != [] && CutAtLeftmost(pieces, secret) && mark != [] && Apart(secret, mark)
    ensures !Occurs(Joined(pieces, mark), secret)
    decreases |pieces|
  {
    var first := pieces[0];
    if |pieces| == 1 {
      assert first + [] == first == Joined(pieces, secret);
      PieceHoldsNone(first, [], secret);
    } else {
      NothingLeft(pieces[1..], secret, mark);
      assert Joined(pieces, secret) == first + (secret + Joined(pieces[1..], secret));
      PieceHoldsNone(first, secret + Joined(pieces[1..], secret), secret);
      forall i: nat | OccursAt(Joined(pieces, mark), secret, i) ensures false {
        ApartWindow(first, mark, Joined(pieces[1..], mark), secret, i);
      }
    }
  }

  /** No occurrence is left of a secret that shares no character with the mark. */
  lemma SecretIsGone(text: string, secret: string, out: string)
    requires secret != [] && Apart(secret, MARK) && Redacts(text, secret, out)
    ensures !Occurs(out, secret)
  {
    var pieces :| MarkedPieces(pieces, text, secret, out);
    NothingLeft(pieces, secret, MARK);
  }

  /** An occurrence begins before the end of what may be emitted and reaches past it. */
  predicate Spanning(value: string, secret: string, end: nat, i: nat) {
    i < end < i + |secret| && OccursAt(value, secret, i)
  }

  /** `e` is the last start of a spanning occurrence, or `end` if there is none. */
  ghost predicate WholeBefore(value: string, secret: string, end: nat, e: nat) {
    && (forall i: nat | Spanning(value, secret, end, i) :: i <= e)
    && (e == end || Spanning(value, secret, end, e))
    && (e == end ==> forall i: nat :: !Spanning(value, secret, end, i))
  }

  lemma CutIsWhole(value: string, secret: string, end: nat)
    requires secret != [] && end == Max(0, |value| - |secret| + 1)
    ensures WholeBefore(value, secret, end, Cut(value, secret))
  {
    var low := Max(0, end - |secret| + 1);
    var last := LastOccurrence(value, secret, low);
    forall i: nat | Spanning(value, secret, end, i)
      ensures last.Some? && i <= last.value && Spanning(value, secret, end, last.value)
    {
      assert low <= i && OccursAt(value, secret, i);
    }
  }

  /** Only the last `|secret| - 1` characters are held back, and more only to keep
    * the last occurrence that reaches into them whole. */
  lemma CutExactly(value: string, secret: string, e: nat)
    ensures secret == [] ==> (e == Cut(value, secret)) == (e == |value|)
    ensures secret != [] ==>
      (e == Cut(value, secret)) == WholeBefore(value, secret, Max(0, |value| - |secret| + 1), e)
  {
    if secret != [] {
      CutIsWhole(value, secret, Max(0, |value| - |secret| + 1));
    }
  }

  // ---------- one stream, all chunkings ----------

  function Flatten(chunks: seq<string>): string {
    if chunks == [] then [] else chunks[0] + Flatten(chunks[1..])
  }

  /** What the writer emits for one stream whose last chunk is the final write. */
  function Emitted(tail: string, chunks: seq<string>, secret: string): string
    requires chunks != []
    decreases |chunks|
  {
    var value := tail + chunks[0];
    if |chunks| == 1 then Redact(value, secret)
    else
      var e := Cut(value, secret);
      Redact(value[..e], secret) + Emitted(value[e..], chunks[1..], secret)
  }

  lemma Regroup(done: string, tail: string, chunk: string, rest: string, e: nat)
    requires e <= |tail + chunk|
    ensures done + (tail + (chunk + rest)) == (done + (tail + chunk)[..e]) + ((tail + chunk)[e..] + rest)
  {
    var value := tail + chunk;
    assert value == value[..e] + value[e..];
    assert tail + (chunk + rest) == value[..e] + (value[e..] + rest);
  }

  lemma EmittedFirst(tail: string, chunks: seq<string>, secret: string)
    requires |chunks| > 1
    ensures var value := tail + chunks[0]; var e := Cut(value, secret);
      Emitted(tail, chunks, secret) == Redact(value[..e], secret) + Emitted(value[e..], chunks[1..], secret)
  {
  }

  lemma Regrouped(whole: string, a: string, b: string, c: string)
    requires whole == (a + b) + c
    ensures whole == a + (b + c)
  {
  }

  lemma {:induction false} EmittedContinues(whole: string, done: string, tail: string, chunks: seq<string>,
                                            secret: string)
    requires chunks != [] && SafeCut(done, tail, secret) && (secret == [] || BorderFree(secret))
    requires whole == done + (tail + Flatten(chunks))
    ensures Redact(whole, secret) == Redact(done, secret) + Emitted(tail, chunks, secret)
    decreases |chunks|
  {
    if |chunks| == 1 {
      assert Flatten(chunks) == chunks[0] + [] == chunks[0];
      LastChunkKeepsRedaction(done, tail, chunks[0], secret);
    } else {
      var value, later := tail + chunks[0], chunks[1..];
      var e := Cut(value, secret);
      var head, rest := value[..e], value[e..];
      ChunkKeepsRedaction(done, tail, chunks[0], secret);
      Regroup(done, tail, chunks[0], Flatten(later), e);
      EmittedContinues(whole, done + head, rest, later, secret);
      EmittedFirst(tail, chunks, secret);
      Regrouped(Redact(whole, secret), Redact(done, secret), Redact(head, secret), Emitted(rest, later, secret));
    }
  }

  /** However a stream is split into chunks, the writer emits exactly the
    * redaction of the whole stream, for an empty or border-free secret. */
  lemma ChunkedRedaction(chunks: seq<string>, secret: string)
    requires chunks != [] && (secret == [] || BorderFree(secret))
    ensures Emitted([], chunks, secret) == Redact(Flatten(chunks), secret)
    ensures Redacts(Flatten(chunks), secret, Emitted([], chunks, secret))
  {
    assert [] + ([] + Flatten(chunks)) == Flatten(chunks);
    EmittedContinues(Flatten(chunks), [], [], chunks, secret);
    assert Redact([], secret) == [];
    RedactMeans(Flatten(chunks), secret);
  }

  lemma {:induction false} ShortTextUnchanged(text: string, secret: string)
    requires |text| < |secret|
    ensures Redact(text, secret) == text
  {
    if text != [] {
      ShortTextUnchanged(text[1..], secret);
      assert text == [text[0]] + text[1..];
    }
  }

  /** Two copies of the secret that overlap, the second one shifted by `k`. */
  function Overlapping(secret: string, k: nat): string
    requires k <= |secret|
  {
    secret[..k] + secret
  }

  lemma OverlappingOccurrences(secret: string, k: nat)
    requires Border(secret, k)
    ensures StartsWith(Overlapping(secret, k), secret)
    ensures Overlapping(secret, k)[..k] == secret[..k] && Overlapping(secret, k)[k..] == secret
    ensures Cut(Overlapping(secret, k), secret) == k
  {
    var n, text := |secret|, Overlapping(secret, k);
    assert secret == secret[..k] + secret[k..];
    assert text[..n] == secret[..k] + secret[..n - k];
    assert text[k..k + n] == secret;
    assert OccursAt(text, secret, k);
    assert |text| - n + 1 == k + 1;
  }

  lemma MaskedWhole(secret: string, mark: string)
    requires secret != []
    ensures Replace(secret, secret, mark) == mark
  {
    assert secret[..|secret|] == secret && secret[|secret|..] == [];
    assert mark + [] == mark;
  }

  lemma MarkIsBorderFree(k: nat, rest: string, before: string)
    requires 0 < k < |MARK| && |before| == k
    ensures before + MARK != MARK + rest
  {
    assert (before + MARK)[k] == '[';
    assert (MARK + rest)[k] == MARK[k];
  }

  lemma EmittedOfTwo(text: string, secret: string)
    ensures var e := Cut(text, secret);
      Emitted([], [text, []], secret) == Redact(text[..e], secret) + Redact(text[e..], secret)
  {
    var chunks: seq<string> := [text, []];
    var e := Cut(text, secret);
    assert [] + text == text && chunks[1..] == [[]] && text[e..] + [] == text[e..];
  }

  lemma MarkShiftsApart(secret: string, k: nat, rest: string)
    requires 0 < k < |secret| && !(MARK <= secret)
    ensures secret[..k] + MARK != MARK + rest
  {
    var before := secret[..k];
    if k < |MARK| {
      MarkIsBorderFree(k, rest, before);
    } else {
      assert (before + MARK)[..|MARK|] == secret[..|MARK|];
      assert (MARK + rest)[..|MARK|] == MARK;
    }
  }

  lemma ReplaceFromStart(text: string, secret: string, mark: string)
    requires secret != [] && StartsWith(text, secret)
    ensures Replace(text, secret, mark) == mark + Replace(text[|secret|..], secret, mark)
  {
  }

  /** A secret with a border is mishandled: the copy emitted last is masked, the
    * first characters of the copy it overlaps are not. */
  lemma BorderBreaksRedaction(secret: string, k: nat)
    requires Border(secret, k) && !(MARK <= secret)
    ensures Emitted([], [Overlapping(secret, k), []], secret) != Redact(Overlapping(secret, k), secret)
  {
    var text := Overlapping(secret, k);
    OverlappingOccurrences(secret, k);
    EmittedOfTwo(text, secret);
    ShortTextUnchanged(secret[..k], secret);
    MaskedWhole(secret, MARK);
    ReplaceFromStart(text, secret, MARK);
    MarkShiftsApart(secret, k, Replace(text[|secret|..], secret, MARK));
  }

  /** For a secret that does not begin with the mark itself, chunked redaction is
    * exact for every chunking if and only if the secret is border-free. */
  lemma ChunkedRedactionExactly(secret: string)
    requires secret != [] && !(MARK <= secret)
    ensures (forall chunks | chunks != [] :: Emitted([], chunks, secret) == Redact(Flatten(chunks), secret))
       <==> BorderFree(secret)
  {
    if BorderFree(secret) {
      forall chunks | chunks != [] ensures Emitted([], chunks, secret) == Redact(Flatten(chunks), secret) {
        ChunkedRedaction(chunks, secret);
      }
    } else {
      var k: nat :| Border(secret, k);
      BorderBreaksRedaction(secret, k);
      var chunks: seq<string> := [Overlapping(secret, k), []];
      assert chunks[1..] == [[]] && Flatten([[]]) == [];
      assert Flatten(chunks) == Overlapping(secret, k) + [] == Overlapping(secret, k);
    }
  }
}
