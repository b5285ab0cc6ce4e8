/** The writer that redacts interleaved streams into one size-bounded log. */
module LogWriting {
  import opened Common
  import opened LogRedaction
  import opened Utf8

  // ---------- one write ----------

  datatype Write = Write(stream: string, text: string, final: bool)

  datatype Log = Log(tails: map<string, string>, output: seq<byte>, incomplete: bool)

  const EMPTY := Log(map[], [], false)

  function TailOf(tails: map<string, string>, stream: string): string {
    if stream in tails then tails[stream] else []
  }

  function Held(log: Log, w: Write): string {
    TailOf(log.tails, w.stream) + w.text
  }

  function CutOf(log: Log, w: Write, secret: string): (e: nat)
    ensures e <= |Held(log, w)|
  {
    if w.final then |Held(log, w)| else Cut(Held(log, w), secret)
  }

  /** The bytes one write wants to add. */
  function Data(log: Log, w: Write, secret: string): seq<byte> {
    Encode(Redact(Held(log, w)[..CutOf(log, w, secret)], secret))
  }

  predicate Fits(log: Log, w: Write, secret: string, limit: int) {
    |log.output| + |Data(log, w, secret)| <= limit
  }

  /** The bytes one write does add. */
  function Added(log: Log, w: Write, secret: string, limit: int): seq<byte> {
    if Fits(log, w, secret, limit) then Data(log, w, secret) else []
  }

  function Step(log: Log, w: Write, secret: string, limit: int): Log {
    Log(log.tails[w.stream := Held(log, w)[CutOf(log, w, secret)..]],
        log.output + Added(log, w, secret, limit),
        log.incomplete || !Fits(log, w, secret, limit))
  }

  /** `e` characters may go out: all of them on a final write or without a secret,
    * and otherwise all but the last `|secret| - 1`, or fewer to keep an occurrence
    * that reaches into those whole. */
  ghost predicate MaySend(value: string, final: bool, secret: string, e: nat) {
    if final || secret == [] then e == |value|
    else WholeBefore(value, secret, Max(0, |value| - |secret| + 1), e)
  }

  /** One write sends what may go out with the secret marked, as UTF-8 and if it
    * fits, and keeps the rest of the stream's text. */
  ghost predicate Wrote(log: Log, w: Write, secret: string, limit: int, after: Log) {
    exists sent, kept, out :: WroteAs(log, w, secret, limit, after, sent, kept, out)
  }

  ghost predicate WroteAs(log: Log, w: Write, secret: string, limit: int, after: Log,
                          sent: string, kept: string, out: string) {
    && TailOf(log.tails, w.stream) + w.text == sent + kept
    && MaySend(sent + kept, w.final, secret, |sent|) && Redacts(sent, secret, out)
    && after.tails == log.tails[w.stream := kept]
    && (if |log.output| + |Encode(out)| <= limit
        then after.output == log.output + Encode(out) && after.incomplete == log.incomplete
        else after.output == log.output && after.incomplete)
  }

  lemma CutIsSendable(log: Log, w: Write, secret: string, e: nat)
    ensures MaySend(Held(log, w), w.final, secret, e) == (e == CutOf(log, w, secret))
  {
    CutExactly(Held(log, w), secret, e);
  }

  lemma StepIsWrote(log: Log, w: Write, secret: string, limit: int)
    ensures Wrote(log, w, secret, limit, Step(log, w, secret, limit))
  {
    var value, e := Held(log, w), CutOf(log, w, secret);
    CutIsSendable(log, w, secret, e);
    RedactMeans(value[..e], secret);
    assert value == value[..e] + value[e..];
    assert WroteAs(log, w, secret, limit, Step(log, w, secret, limit), value[..e], value[e..],
                   Redact(value[..e], secret));
  }

  /** The step is the only log that one write can lead to. */
  lemma StepExactly(log: Log, w: Write, secret: string, limit: int, after: Log)
    ensures Wrote(log, w, secret, limit, after) == (after == Step(log, w, secret, limit))
  {
    StepIsWrote(log, w, secret, limit);
    if Wrote(log, w, secret, limit, after) {
      var sent, kept, out :| WroteAs(log, w, secret, limit, after, sent, kept, out);
      var value := Held(log, w);
      CutIsSendable(log, w, secret, |sent|);
      assert value[..|sent|] == sent && value[|sent|..] == kept;
      RedactMeans(sent, secret);
    }
  }

  class LogWriter {
    const secret: string
    const limit: int
    var output: seq<byte>
    var tails: map<string, string>
    var size: int
    var incomplete: bool

    ghost predicate Valid()
      reads this
    {
      size == |output| && (output != [] ==> size <= limit)
    }

    function Contents(): Log
      reads this
    {
      Log(tails, output, incomplete)
    }

    constructor (secret: string, limit: int)
      ensures Valid() && Contents() == EMPTY && this.secret == secret && this.limit == limit
    {
      this.secret, this.limit := secret, limit;
      output, tails, size, incomplete := [], map[], 0, false;
    }

    method FindCut(value: string, final: bool) returns (end: nat)
      ensures end == if final then |value| else Cut(value, secret)
    {
      end := if final then |value| else Min(|value|, Max(0, |value| - |secret| + 1));
      if secret != [] && !final {
        var start := LastOccurrence(value, secret, Max(0, end - |secret| + 1));
        if start.Some? && start.value < end < start.value + |secret| {
          end := start.value;
        }
      }
    }

    method Put(text: string, final: bool, stream: string)
      requires Valid()
      modifies this
      ensures Valid()
      ensures Wrote(old(Contents()), Write(stream, text, final), secret, limit, Contents())
      ensures Contents() == Step(old(Contents()), Write(stream, text, final), secret, limit)
    {
      ghost var was, w := Contents(), Write(stream, text, final);
      var value := (if stream in tails then tails[stream] else []) + text;
      var end := FindCut(value, final);
      assert value == Held(was, w) && end == CutOf(was, w, secret);
      tails := tails[stream := value[end..]];
      var data := Encode(Redact(value[..end], secret));
      if size + |data| <= limit {
        output := output + data;
        size := size + |data|;
      } else {
        incomplete := true;
      }
      assert data == Data(was, w, secret);
      assert Contents() == Step(was, w, secret, limit);
      StepIsWrote(was, w, secret, limit);
    }
  }

  // ---------- whole runs ----------

  function After(writes: seq<Write>, secret: string, limit: int): Log {
    if writes == [] then EMPTY
    else Step(After(writes[..|writes| - 1], secret, limit), writes[|writes| - 1], secret, limit)
  }

  /** Everything received on one stream. */
  function Received(writes: seq<Write>, stream: string): string {
    if writes == [] then []
    else
      var w, sofar := writes[|writes| - 1], Received(writes[..|writes| - 1], stream);
      if w.stream == stream then sofar + w.text else sofar
  }

  /** Everything put into the log on behalf of one stream. */
  function EmittedFor(writes: seq<Write>, stream: string, secret: string, limit: int): seq<byte> {
    if writes == [] then []
    else
      var w, before := writes[|writes| - 1], writes[..|writes| - 1];
      var sofar := EmittedFor(before, stream, secret, limit);
      if w.stream == stream then sofar + Added(After(before, secret, limit), w, secret, limit) else sofar
  }

  /** The bytes each write added, in order. */
  function Pieces(writes: seq<Write>, secret: string, limit: int): seq<byte> {
    if writes == [] then []
    else
      var w, before := writes[|writes| - 1], writes[..|writes| - 1];
      Pieces(before, secret, limit) + Added(After(before, secret, limit), w, secret, limit)
  }

  predicate Closed(writes: seq<Write>, stream: string) {
    writes != [] && ((writes[|writes| - 1].stream == stream && writes[|writes| - 1].final)
                     || Closed(writes[..|writes| - 1], stream))
  }

  /** No stream is written to after its final write. */
  predicate NeverReopened(writes: seq<Write>) {
    writes == []
    || (NeverReopened(writes[..|writes| - 1]) && !Closed(writes[..|writes| - 1], writes[|writes| - 1].stream))
  }

  /** The log never exceeds its limit, however many writes arrive. */
  lemma {:induction false} SizeStaysBounded(writes: seq<Write>, secret: string, limit: int)
    ensures var log := After(writes, secret, limit); |log.output| <= Max(0, limit)
    ensures After(writes, secret, limit).output == Pieces(writes, secret, limit)
  {
    if writes != [] {
      SizeStaysBounded(writes[..|writes| - 1], secret, limit);
    }
  }

  /** The part of one stream's text that is no longer held back. */
  function Released(writes: seq<Write>, stream: string, secret: string, limit: int): string {
    if writes == [] then []
    else
      var w, before := writes[|writes| - 1], writes[..|writes| - 1];
      var log := After(before, secret, limit);
      var sofar := Released(before, stream, secret, limit);
      if w.stream == stream then sofar + Held(log, w)[..CutOf(log, w, secret)] else sofar
  }

  /** What is known about one stream while nothing was dropped: the released text
    * has been emitted redacted, and the cut before the held text is safe. */
  ghost predicate StreamKept(text: string, done: string, tail: string, emitted: seq<byte>, closed: bool,
                             secret: string) {
    && text == done + tail
    && emitted == Encode(Redact(done, secret))
    && (if closed then tail == [] else SafeCut(done, tail, secret))
  }

  lemma RedactionGrows(done: string, tail: string, more: string, e: nat, final: bool, secret: string)
    requires SafeCut(done, tail, secret) && (secret == [] || BorderFree(secret))
    requires e == if final then |tail + more| else Cut(tail + more, secret)
    ensures Redact(done + (tail + more)[..e], secret) == Redact(done, secret) + Redact((tail + more)[..e], secret)
    ensures !final ==> SafeCut(done + (tail + more)[..e], (tail + more)[e..], secret)
  {
    if final {
      assert (tail + more)[..e] == tail + more;
      LastChunkKeepsRedaction(done, tail, more, secret);
    } else {
      ChunkKeepsRedaction(done, tail, more, secret);
    }
  }

  lemma Rejoin(done: string, tail: string, more: string, e: nat)
    requires e <= |tail + more|
    ensures (done + tail) + more == (done + (tail + more)[..e]) + (tail + more)[e..]
  {
    assert tail + more == (tail + more)[..e] + (tail + more)[e..];
  }

  lemma StreamStep(text: string, done: string, tail: string, emitted: seq<byte>, more: string, e: nat, final: bool,
                   secret: string)
    requires StreamKept(text, done, tail, emitted, false, secret) && (secret == [] || BorderFree(secret))
    requires e == if final then |tail + more| else Cut(tail + more, secret)
    ensures var value := tail + more;
      StreamKept(text + more, done + value[..e], value[e..], emitted + Encode(Redact(value[..e], secret)), final,
                 secret)
  {
    Rejoin(done, tail, more, e);
    RedactionGrows(done, tail, more, e, final, secret);
    EncodeConcat(Redact(done, secret), Redact((tail + more)[..e], secret));
  }

  ghost predicate Kept(writes: seq<Write>, stream: string, secret: string, limit: int) {
    StreamKept(Received(writes, stream), Released(writes, stream, secret, limit),
               TailOf(After(writes, secret, limit).tails, stream),
               EmittedFor(writes, stream, secret, limit), Closed(writes, stream), secret)
  }

  lemma OtherStreamKept(before: seq<Write>, w: Write, stream: string, secret: string, limit: int)
    requires Kept(before, stream, secret, limit) && w.stream != stream
    ensures Kept(before + [w], stream, secret, limit)
  {
    assert (before + [w])[..|before|] == before;
  }

  lemma NothingDropped(before: seq<Write>, w: Write, secret: string, limit: int)
    requires !After(before + [w], secret, limit).incomplete
    ensures !After(before, secret, limit).incomplete && Fits(After(before, secret, limit), w, secret, limit)
  {
    assert (before + [w])[..|before|] == before;
  }

  lemma {:induction false} EveryStreamKept(writes: seq<Write>, stream: string, secret: string, limit: int)
    requires secret == [] || BorderFree(secret)
    requires NeverReopened(writes) && !After(writes, secret, limit).incomplete
    ensures Kept(writes, stream, secret, limit)
    decreases |writes|
  {
    if writes == [] {
      NothingWritten(stream, secret, limit);
    } else {
      var before, w := writes[..|writes| - 1], writes[|writes| - 1];
      assert writes == before + [w];
      NothingDropped(before, w, secret, limit);
      EveryStreamKept(before, stream, secret, limit);
      if w.stream == stream {
        WriteKept(before, w, secret, limit);
      } else {
        OtherStreamKept(before, w, stream, secret, limit);
      }
    }
  }

  lemma NothingWritten(stream: string, secret: string, limit: int)
    ensures Kept([], stream, secret, limit)
  {
  }

  lemma WriteKept(before: seq<Write>, w: Write, secret: string, limit: int)
    requires secret == [] || BorderFree(secret)
    requires Kept(before, w.stream, secret, limit) && !Closed(before, w.stream)
    requires Fits(After(before, secret, limit), w, secret, limit)
    ensures Kept(before + [w], w.stream, secret, limit)
  {
    var log, stream := After(before, secret, limit), w.stream;
    var writes := before + [w];
    assert writes[..|writes| - 1] == before;
    StreamStep(Received(before, stream), Released(before, stream, secret, limit), TailOf(log.tails, stream),
               EmittedFor(before, stream, secret, limit), w.text, CutOf(log, w, secret), w.final, secret);
  }

  /** The bytes are those of the text with the mark in the place of every occurrence
    * of the secret; if the two share no character, no occurrence is left. */
  ghost predicate LoggedRedacted(text: string, secret: string, bytes: seq<byte>) {
    exists out :: Redacts(text, secret, out) && bytes == Encode(out)
      && (secret != [] && Apart(secret, MARK) ==> !Occurs(out, secret))
  }

  lemma RedactionIsLogged(text: string, secret: string)
    ensures LoggedRedacted(text, secret, Encode(Redact(text, secret)))
  {
    RedactMeans(text, secret);
    assert Redacts(text, secret, Redact(text, secret));
    if secret != [] && Apart(secret, MARK) {
      SecretIsGone(text, secret, Redact(text, secret));
    }
  }

  /** Over every interleaving of streams and every split into chunks, while nothing
    * was dropped, a closed stream has been logged as exactly its redaction. */
  lemma RedactionOfEveryStream(writes: seq<Write>, stream: string, secret: string, limit: int)
    requires secret == [] || BorderFree(secret)
    requires NeverReopened(writes) && !After(writes, secret, limit).incomplete
    requires Closed(writes, stream)
    ensures EmittedFor(writes, stream, secret, limit) == Encode(Redact(Received(writes, stream), secret))
    ensures LoggedRedacted(Received(writes, stream), secret, EmittedFor(writes, stream, secret, limit))
  {
    EveryStreamKept(writes, stream, secret, limit);
    var done := Released(writes, stream, secret, limit);
    assert done + [] == done;
    RedactionIsLogged(Received(writes, stream), secret);
  }
}
