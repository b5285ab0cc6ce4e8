/** Reading descriptors under one shared byte and time budget. */
module BoundedReads {
  import opened Common

  const TOTAL_READ_LIMIT: nat := 8388608

  datatype SourceKind = Resource | Procfs

  function FileLimit(kind: SourceKind): nat {
    match kind
    case Resource => 65536
    case Procfs => 524288
  }

  /** What one read call comes back with. */
  datatype Reply = Bytes(chunk: seq<byte>) | OsError(errno: Option<int>) | NotBytes

  datatype ReadState = Available | DeadlineReached | LimitReached | ReadError(errno: Option<int>)

  datatype Observation = Observation(state: ReadState, count: nat, value: Option<seq<byte>>)

  /** A clock whose readings are arbitrary. */
  class Clock {
    const at: nat -> real
    var readings: nat

    constructor (at: nat -> real)
      ensures this.at == at && readings == 0
    {
      this.at, readings := at, 0;
    }

    method Now() returns (t: real)
      modifies this`readings
      ensures t == at(old(readings)) && readings == old(readings) + 1
    {
      t := at(readings);
      readings := readings + 1;
    }
  }

  /** A descriptor whose replies are arbitrary; what was asked for is recorded. */
  class Descriptor {
    const reply: nat -> Reply
    var calls: nat
    ghost var asked: seq<nat>

    constructor (reply: nat -> Reply)
      ensures this.reply == reply && calls == 0 && asked == []
    {
      this.reply, calls, asked := reply, 0, [];
    }

    method Read(amount: nat) returns (r: Reply)
      modifies this`calls, this`asked
      ensures r == reply(old(calls)) && calls == old(calls) + 1 && asked == old(asked) + [amount]
    {
      r := reply(calls);
      calls := calls + 1;
      asked := asked + [amount];
    }
  }

  class ReadBudget {
    const byteLimit: nat
    const deadline: real
    const clock: Clock
    var bytesRead: int

    ghost predicate Valid()
      reads this
    {
      0 <= bytesRead <= byteLimit <= TOTAL_READ_LIMIT
    }

    constructor (byteLimit: nat, deadline: real, clock: Clock)
      requires byteLimit <= TOTAL_READ_LIMIT
      ensures Valid() && bytesRead == 0 && this.byteLimit == byteLimit && this.deadline == deadline
      ensures this.clock == clock
    {
      this.byteLimit, this.deadline, this.clock, bytesRead := byteLimit, deadline, clock, 0;
    }

    function Remaining(): int
      reads this
    {
      Max(0, byteLimit - bytesRead)
    }

    method AdmissionState() returns (refused: Option<ReadState>)
      modifies clock`readings
      ensures refused == Some(DeadlineReached) <==> clock.at(old(clock.readings)) >= deadline
      ensures refused == None || refused == Some(DeadlineReached) || (refused == Some(LimitReached) && Remaining() == 0)
      ensures refused == None ==> Remaining() > 0
      ensures clock.readings == old(clock.readings) + 1
    {
      var now := clock.Now();
      if now >= deadline {
        return Some(DeadlineReached);
      }
      refused := if Remaining() <= 0 then Some(LimitReached) else None;
    }

    /** Refuses, and changes nothing, if the count does not fit. */
    method Account(count: int) returns (accepted: bool)
      modifies this`bytesRead
      ensures accepted <==> 0 <= count <= old(Remaining())
      ensures bytesRead == old(bytesRead) + if accepted then count else 0
    {
      accepted := 0 <= count <= Remaining();
      if accepted {
        bytesRead := bytesRead + count;
      }
    }
  }

  // ---------- what a read delivered ----------

  /** The bytes the calls numbered `i` to `j - 1` delivered. */
  function Delivered(reply: nat -> Reply, i: nat, j: nat): seq<byte>
    requires i <= j
    decreases j - i
  {
    if i == j then []
    else
      var last := reply(j - 1);
      Delivered(reply, i, j - 1) + if last.Bytes? then last.chunk else []
  }

  /** The replies of the calls numbered `i` to `j - 1` were all non-empty chunks. */
  predicate Chunks(reply: nat -> Reply, i: nat, j: nat) {
    forall k | i <= k < j :: reply(k).Bytes? && reply(k).chunk != []
  }

  /** The reply is an error when at most `amount` bytes were asked for. */
  predicate IsError(reply: Reply, amount: nat, errno: Option<int>) {
    match reply
    case OsError(e) => errno == e
    case NotBytes => errno == None
    case Bytes(chunk) => errno == None && |chunk| > amount
  }

  /** How a finished read relates to the calls it made.  All calls but the last
    * delivered a chunk; the last one did too unless the reply itself ended the read. */
  ghost predicate Explains(o: Observation, kind: SourceKind, reply: nat -> Reply, i: nat, j: nat, asked: seq<nat>,
                           remaining: int) {
    i <= j &&
    match o.state {
      case Available =>
        && j > i && reply(j - 1) == Bytes([]) && Chunks(reply, i, j - 1)
        && o.value == Some(Delivered(reply, i, j - 1)) && |o.value.value| == o.count < FileLimit(kind) && remaining > 0
      case ReadError(errno) =>
        && j > i && asked != [] && IsError(reply(j - 1), asked[|asked| - 1], errno) && Chunks(reply, i, j - 1)
        && o.value == None && o.count == |Delivered(reply, i, j - 1)|
      case LimitReached =>
        && Chunks(reply, i, j) && o.value == None && o.count == |Delivered(reply, i, j)|
        && (o.count == FileLimit(kind) || remaining == 0)
      case DeadlineReached =>
        Chunks(reply, i, j) && o.value == None && o.count == |Delivered(reply, i, j)| < FileLimit(kind)
    }
  }

  /** Calls `i` to `j - 1` delivered the given bytes, chunk by chunk. */
  ghost predicate Progress(reply: nat -> Reply, i: nat, j: nat, chunks: seq<byte>) {
    i <= j && Chunks(reply, i, j) && chunks == Delivered(reply, i, j)
  }

  lemma MoreProgress(reply: nat -> Reply, i: nat, j: nat, chunks: seq<byte>)
    requires Progress(reply, i, j, chunks) && reply(j).Bytes? && reply(j).chunk != []
    ensures Progress(reply, i, j + 1, chunks + reply(j).chunk)
  {
  }

  /** Every amount asked for from position `k` on was positive and within both limits. */
  ghost predicate Modest(asked: seq<nat>, k: nat, fileLimit: nat, byteLimit: nat) {
    forall i | k <= i < |asked| :: 0 < asked[i] <= fileLimit && asked[i] <= byteLimit
  }

  lemma MoreModest(asked: seq<nat>, more: seq<nat>, k: nat, fileLimit: nat, byteLimit: nat)
    requires Modest(asked, k, fileLimit, byteLimit) && asked <= more && |more| <= |asked| + 1
    requires |more| > |asked| ==> 0 < more[|asked|] <= Min(fileLimit, byteLimit)
    ensures Modest(more, k, fileLimit, byteLimit)
  {
  }

  /** One more read is allowed: neither the budget nor the deadline is used up. */
  method Admit(budget: ReadBudget, clock: Clock) returns (refused: Option<ReadState>)
    modifies budget.clock`readings, clock`readings
    ensures match refused {
      case None => budget.Remaining() > 0
      case Some(why) =>
        (why == LimitReached && budget.Remaining() == 0) || (why == DeadlineReached && LateReading(budget, clock))
    }
  {
    refused := budget.AdmissionState();
    if refused.None? {
      var now := clock.Now();
      if now >= budget.deadline {
        refused := Some(DeadlineReached);
      }
    }
  }

  /** The latest reading of one of the two clocks is at or past the deadline. */
  ghost predicate LateReading(budget: ReadBudget, clock: Clock)
    reads budget.clock, clock
  {
    || (budget.clock.readings > 0 && budget.clock.at(budget.clock.readings - 1) >= budget.deadline)
    || (clock.readings > 0 && clock.at(clock.readings - 1) >= budget.deadline)
  }

  datatype Outcome = More(chunk: seq<byte>) | Stop(state: ReadState)

  /** A reply that ends a read or hands over a chunk, when `amount` was asked for. */
  predicate Means(reply: Reply, amount: nat, r: Outcome) {
    match r
    case More(chunk) => reply == Bytes(chunk) && chunk != [] && |chunk| <= amount
    case Stop(Available) => reply == Bytes([])
    case Stop(ReadError(errno)) => IsError(reply, amount, errno)
    case _ => false
  }

  /** One read call, if admitted; a chunk that fits is charged to the budget. */
  method Next(file: Descriptor, left: nat, budget: ReadBudget, clock: Clock) returns (r: Outcome)
    requires budget.Valid() && left > 0
    modifies file`calls, file`asked, budget`bytesRead, budget.clock`readings, clock`readings
    ensures budget.Valid() && budget.bytesRead == old(budget.bytesRead) + if r.More? then |r.chunk| else 0
    ensures r == Stop(LimitReached) ==> budget.Remaining() == 0
    ensures r == Stop(DeadlineReached) ==> LateReading(budget, clock)
    ensures r == Stop(Available) ==> budget.Remaining() > 0
    ensures r == Stop(LimitReached) || r == Stop(DeadlineReached) ==>
      file.calls == old(file.calls) && file.asked == old(file.asked)
    ensures r != Stop(LimitReached) && r != Stop(DeadlineReached) ==>
      && file.calls == old(file.calls) + 1 && old(file.asked) < file.asked && |file.asked| == |old(file.asked)| + 1
      && Means(file.reply(old(file.calls)), file.asked[|file.asked| - 1], r)
      && 0 < file.asked[|file.asked| - 1] <= Min(left, budget.byteLimit)
  {
    var refused := Admit(budget, clock);
    if refused.Some? {
      return Stop(refused.value);
    }
    var amount := Min(left, budget.Remaining());
    var now := clock.Now();
    if now >= budget.deadline {
      return Stop(DeadlineReached);
    }
    var reply := file.Read(amount);
    if reply.OsError? {
      return Stop(ReadError(reply.errno));
    }
    if reply.NotBytes? || |reply.chunk| > amount {
      return Stop(ReadError(None));
    }
    if reply.chunk == [] {
      return Stop(Available);
    }
    var accepted := budget.Account(|reply.chunk|);
    assert accepted;
    r := More(reply.chunk);
  }

  /** The bytes delivered so far become the observation the stopping call calls for. */
  lemma StopExplained(kind: SourceKind, reply: nat -> Reply, i: nat, j: nat, chunks: seq<byte>, asked: seq<nat>,
                      remaining: int, why: ReadState)
    requires Progress(reply, i, j, chunks) && |chunks| < FileLimit(kind)
    requires why == LimitReached ==> remaining == 0
    requires why == Available ==> remaining > 0
    requires why.Available? || why.ReadError? ==> asked != [] && Means(reply(j), asked[|asked| - 1], Stop(why))
    ensures var o := Observation(why, |chunks|, if why == Available then Some(chunks) else None);
      Explains(o, kind, reply, i, if why.Available? || why.ReadError? then j + 1 else j, asked, remaining)
  {
  }

  lemma LimitExplained(kind: SourceKind, reply: nat -> Reply, i: nat, j: nat, chunks: seq<byte>, asked: seq<nat>,
                       remaining: int)
    requires Progress(reply, i, j, chunks) && (|chunks| == FileLimit(kind) || remaining == 0)
    ensures Explains(Observation(LimitReached, |chunks|, None), kind, reply, i, j, asked, remaining)
  {
  }

  /** Read to the end of the file, or until a limit, the deadline or an error. */
  method ReadBounded(file: Descriptor, kind: SourceKind, budget: ReadBudget, clock: Clock) returns (o: Observation)
    requires budget.Valid()
    modifies file`calls, file`asked, budget`bytesRead, budget.clock`readings, clock`readings
    ensures budget.Valid() && budget.bytesRead == old(budget.bytesRead) + o.count && o.count <= FileLimit(kind)
    ensures Explains(o, kind, file.reply, old(file.calls), file.calls, file.asked, budget.Remaining())
    ensures o.state == DeadlineReached ==> LateReading(budget, clock)
    ensures old(file.asked) <= file.asked && Modest(file.asked, |old(file.asked)|, FileLimit(kind), budget.byteLimit)
  {
    var fileLimit := FileLimit(kind);
    var chunks: seq<byte>, count := [], 0;
    ghost var reply, first, before, calls := file.reply, file.calls, file.asked, file.calls;
    while true
      invariant budget.Valid() && budget.bytesRead == old(budget.bytesRead) + count
      invariant calls == file.calls && |chunks| == count < fileLimit
      invariant Progress(reply, first, calls, chunks)
      invariant before <= file.asked && Modest(file.asked, |before|, fileLimit, budget.byteLimit)
      decreases fileLimit - count
    {
      ghost var asked := file.asked;
      var r := Next(file, fileLimit - count, budget, clock);
      MoreModest(asked, file.asked, |before|, fileLimit, budget.byteLimit);
      if r.Stop? {
        StopExplained(kind, reply, first, calls, chunks, file.asked, budget.Remaining(), r.state);
        return Observation(r.state, count, if r.state == Available then Some(chunks) else None);
      }
      MoreProgress(reply, first, calls, chunks);
      calls, count, chunks := calls + 1, count + |r.chunk|, chunks + r.chunk;
      if count == fileLimit || budget.Remaining() == 0 {
        LimitExplained(kind, reply, first, calls, chunks, file.asked, budget.Remaining());
        return Observation(LimitReached, count, None);
      }
    }
  }

  // ---------- a sequence of reads ----------

  function Total(os: seq<Observation>): nat {
    if os == [] then 0 else Total(os[..|os| - 1]) + os[|os| - 1].count
  }

  datatype Job = Job(file: Descriptor, kind: SourceKind)

  /** The calls of one read on its descriptor, what had been asked for by then, and
    * the bytes of the budget it left. */
  datatype Span = Span(first: nat, last: nat, asked: seq<nat>, left: int)

  /** The observation is explained by the read's own calls and the budget it left. */
  ghost predicate JobExplained(job: Job, o: Observation, span: Span) {
    Explains(o, job.kind, job.file.reply, span.first, span.last, span.asked, span.left)
  }

  ghost predicate AllExplained(jobs: seq<Job>, os: seq<Observation>, spans: seq<Span>) {
    |os| == |spans| <= |jobs| && forall k | 0 <= k < |os| :: JobExplained(jobs[k], os[k], spans[k])
  }

  /** What a read leaves is what all reads up to it did not use of `allowance` bytes. */
  ghost predicate Charged(os: seq<Observation>, spans: seq<Span>, allowance: int) {
    |os| == |spans| && forall k | 0 <= k < |os| :: spans[k].left == allowance - Total(os[..k + 1])
  }

  /** Reads of one descriptor use its replies one after another. */
  ghost predicate InTurn(jobs: seq<Job>, spans: seq<Span>)
    requires |spans| <= |jobs|
  {
    forall i, k | 0 <= i < k < |spans| && jobs[i].file == jobs[k].file :: spans[i].last <= spans[k].first
  }

  lemma OneMoreExplained(jobs: seq<Job>, os: seq<Observation>, spans: seq<Span>, o: Observation, span: Span)
    requires |os| < |jobs| && AllExplained(jobs, os, spans) && JobExplained(jobs[|os|], o, span)
    ensures AllExplained(jobs, os + [o], spans + [span])
  {
    forall k | 0 <= k < |os + [o]| ensures JobExplained(jobs[k], (os + [o])[k], (spans + [span])[k]) {
      if k < |os| {
        assert JobExplained(jobs[k], os[k], spans[k]);
      }
    }
  }

  /** No read has used replies that its descriptor has still to give. */
  ghost predicate Finished(jobs: seq<Job>, spans: seq<Span>)
    requires |spans| <= |jobs|
    reads set k | 0 <= k < |jobs| :: jobs[k].file
  {
    forall k | 0 <= k < |spans| :: spans[k].last <= jobs[k].file.calls
  }

  lemma OneMoreInTurn(jobs: seq<Job>, spans: seq<Span>, span: Span)
    requires |spans| < |jobs| && InTurn(jobs, spans)
    requires forall i | 0 <= i < |spans| && jobs[i].file == jobs[|spans|].file :: spans[i].last <= span.first
    ensures InTurn(jobs, spans + [span])
  {
  }

  lemma {:induction false} TotalOfPrefix(os: seq<Observation>, o: Observation)
    ensures Total(os + [o]) == Total(os) + o.count
  {
    assert (os + [o])[..|os|] == os;
  }

  lemma OneMoreCharged(os: seq<Observation>, spans: seq<Span>, allowance: int, o: Observation, span: Span)
    requires Charged(os, spans, allowance) && span.left == allowance - Total(os) - o.count
    ensures Charged(os + [o], spans + [span], allowance)
  {
    forall k | 0 <= k < |os + [o]| ensures (spans + [span])[k].left == allowance - Total((os + [o])[..k + 1]) {
      if k < |os| {
        assert (os + [o])[..k + 1] == os[..k + 1];
      } else {
        TotalOfPrefix(os, o);
        assert (os + [o])[..k + 1] == os + [o];
      }
    }
  }

  method ReadJob(job: Job, budget: ReadBudget, clock: Clock) returns (o: Observation, ghost span: Span)
    requires budget.Valid()
    modifies job.file, budget`bytesRead, budget.clock`readings, clock`readings
    ensures JobExplained(job, o, span)
    ensures span.first == old(job.file.calls) <= span.last == job.file.calls
    ensures span.left == budget.byteLimit - budget.bytesRead >= 0
    ensures budget.bytesRead == old(budget.bytesRead) + o.count
  {
    o := ReadBounded(job.file, job.kind, budget, clock);
    span := Span(old(job.file.calls), job.file.calls, job.file.asked, budget.Remaining());
  }

  /** The reads so far are explained, charged to the allowance and in turn. */
  ghost predicate Recorded(jobs: seq<Job>, os: seq<Observation>, spans: seq<Span>, allowance: int) {
    AllExplained(jobs, os, spans) && Charged(os, spans, allowance) && InTurn(jobs, spans)
  }

  method ReadNext(jobs: seq<Job>, ghost files: set<Descriptor>, os: seq<Observation>, ghost spans: seq<Span>,
                  ghost allowance: int, budget: ReadBudget, clock: Clock)
    returns (o: Observation, ghost span: Span)
    requires |os| < |jobs| && budget.Valid() && forall k | 0 <= k < |jobs| :: jobs[k].file in files
    requires Recorded(jobs, os, spans, allowance) && Finished(jobs, spans)
    requires budget.byteLimit - budget.bytesRead == allowance - Total(os)
    modifies files, budget`bytesRead, budget.clock`readings, clock`readings
    ensures budget.Valid() && budget.bytesRead == old(budget.bytesRead) + o.count
    ensures Recorded(jobs, os + [o], spans + [span], allowance) && Finished(jobs, spans + [span])
    ensures budget.byteLimit - budget.bytesRead == allowance - Total(os + [o])
  {
    o, span := ReadJob(jobs[|os|], budget, clock);
    TotalOfPrefix(os, o);
    OneMoreExplained(jobs, os, spans, o, span);
    OneMoreInTurn(jobs, spans, span);
    OneMoreCharged(os, spans, allowance, o, span);
  }

  /** Any sequence of reads with one budget: the counts add up to the bytes charged,
    * which never exceed the limit, and a read stops for want of budget only when
    * all reads up to it have used the budget up. */
  method ReadAll(jobs: seq<Job>, ghost files: set<Descriptor>, budget: ReadBudget, clock: Clock)
    returns (os: seq<Observation>, ghost spans: seq<Span>)
    requires budget.Valid() && forall k | 0 <= k < |jobs| :: jobs[k].file in files
    modifies files, budget`bytesRead, budget.clock`readings, clock`readings
    ensures |os| == |jobs| && Recorded(jobs, os, spans, budget.byteLimit - old(budget.bytesRead))
    ensures budget.Valid() && budget.bytesRead == old(budget.bytesRead) + Total(os) <= budget.byteLimit
  {
    os, spans := [], [];
    ghost var allowance := budget.byteLimit - budget.bytesRead;
    for n := 0 to |jobs|
      invariant |os| == n && Recorded(jobs, os, spans, allowance) && Finished(jobs, spans)
      invariant budget.Valid() && budget.byteLimit - budget.bytesRead == allowance - Total(os)
    {
      var o;
      ghost var span;
      o, span := ReadNext(jobs, files, os, spans, allowance, budget, clock);
      os, spans := os + [o], spans + [span];
    }
  }
}
