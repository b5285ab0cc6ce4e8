/** The bounded child-first purge and the relation every run of it keeps. */
module SnapshotPurge {
  import opened Common
  import opened SnapshotTables

  // ---------- the five delete statements ----------

  predicate HasSamples(db: Db, r: RunId) {
    exists k | k in db.samples :: k.run == r
  }

  predicate HasPayloads(db: Db, r: RunId) {
    exists p | p in db.payloads :: db.payloads[p].run == r
  }

  /** The newest finalized Wait run, kept as the comparison fence. */
  predicate Fence(db: Db, r: RunId) {
    FinalizedWait(db, r) && forall later | later in db.runs :: FinalizedWait(db, later) ==> later <= r
  }

  function ExpiredSamples(db: Db, rawCut: int): set<SampleKey> {
    set k | k in db.samples && db.samples[k].collected < rawCut
  }

  function ExpiredPayloads(db: Db, payloadCut: int): set<nat> {
    set p | p in db.payloads && db.payloads[p].captured < payloadCut
  }

  function DeletableModules(db: Db, rawCut: int): set<ModuleKey> {
    set k | k in db.modules && k.run in db.runs && db.runs[k.run].started < rawCut
            && !HasSamples(db, k.run) && !HasPayloads(db, k.run)
  }

  function DeletableRuns(db: Db, rawCut: int): set<RunId> {
    set r | r in db.runs && db.runs[r].started < rawCut && !HasChildren(db, r) && !Fence(db, r)
  }

  function DeletableScopes(db: Db): set<Scope> {
    set s | s in db.scopes && s != ServerScope
            && (forall k | k in db.samples :: k.scope != s)
            && (forall c | c in db.scopes :: c.Parent() != Some(s))
  }

  const STATEMENTS := 5

  /** Rows the i-th delete statement matches. */
  function Matches(db: Db, i: nat, rawCut: int, payloadCut: int): nat
    requires i < STATEMENTS
  {
    if i == 0 then |ExpiredSamples(db, rawCut)|
    else if i == 1 then |ExpiredPayloads(db, payloadCut)|
    else if i == 2 then |DeletableModules(db, rawCut)|
    else if i == 3 then |DeletableRuns(db, rawCut)|
    else |DeletableScopes(db)|
  }

  /** Rows of the table the i-th delete statement works on. */
  function Rows(db: Db, i: nat): nat
    requires i < STATEMENTS
  {
    if i == 0 then |db.samples|
    else if i == 1 then |db.payloads|
    else if i == 2 then |db.modules|
    else if i == 3 then |db.runs|
    else |db.scopes|
  }

  function TotalRows(db: Db): nat {
    |db.samples| + |db.payloads| + |db.modules| + |db.runs| + |db.scopes|
  }

  predicate Fixpoint(db: Db, rawCut: int, payloadCut: int) {
    forall i | 0 <= i < STATEMENTS :: Matches(db, i, rawCut, payloadCut) == 0
  }

  // ---------- what any amount of purging may do ----------

  ghost predicate Shrinks<K(!new), V>(a: map<K, V>, b: map<K, V>) {
    forall k | k in b :: k in a && b[k] == a[k]
  }

  /** Only expired rows disappear, surviving rows are unchanged, the fence run
    * and the server scope stay, and the foreign keys still hold. */
  ghost predicate PurgeEffect(a: Db, b: Db, rawCut: int, payloadCut: int) {
    && Shrinks(a.samples, b.samples) && Shrinks(a.payloads, b.payloads)
    && Shrinks(a.modules, b.modules) && Shrinks(a.runs, b.runs) && b.scopes <= a.scopes
    && (forall k | k in a.samples && k !in b.samples :: a.samples[k].collected < rawCut)
    && (forall p | p in a.payloads && p !in b.payloads :: a.payloads[p].captured < payloadCut)
    && (forall k | k in a.modules && k !in b.modules :: k.run in a.runs && a.runs[k.run].started < rawCut
                                                        && !HasSamples(b, k.run) && !HasPayloads(b, k.run))
    && (forall r | r in a.runs && r !in b.runs :: a.runs[r].started < rawCut && !Fence(a, r))
    && (ServerScope in a.scopes ==> ServerScope in b.scopes)
    && b.nextRun == a.nextRun && b.nextPayload == a.nextPayload
    && Consistent(b)
  }

  lemma PurgeEffectTransitive(a: Db, b: Db, c: Db, rawCut: int, payloadCut: int)
    requires PurgeEffect(a, b, rawCut, payloadCut) && PurgeEffect(b, c, rawCut, payloadCut)
    ensures PurgeEffect(a, c, rawCut, payloadCut)
  {
    forall r | r in a.runs && r !in c.runs ensures a.runs[r].started < rawCut && !Fence(a, r) {
      if r in b.runs {
        assert !Fence(b, r);
        if FinalizedWait(a, r) {
          var later :| later in b.runs && FinalizedWait(b, later) && later > r;
          assert FinalizedWait(a, later);
        }
      }
    }
    forall k | k in a.samples && k !in c.samples ensures a.samples[k].collected < rawCut {
      assert k in b.samples || k !in b.samples;
    }
    forall p | p in a.payloads && p !in c.payloads ensures a.payloads[p].captured < payloadCut {
      assert p in b.payloads || p !in b.payloads;
    }
    forall k | k in a.modules && k !in c.modules
      ensures k.run in a.runs && a.runs[k.run].started < rawCut && !HasSamples(c, k.run) && !HasPayloads(c, k.run)
    {
      if k !in b.modules { assert !HasSamples(b, k.run) && !HasPayloads(b, k.run); }
    }
  }

  /** However often and with whatever cut-offs purges run, the newest finalized
    * Wait run stays, with its row unchanged. */
  lemma FenceSurvives(a: Db, b: Db, rawCut: int, payloadCut: int, r: RunId)
    requires PurgeEffect(a, b, rawCut, payloadCut) && Fence(a, r)
    ensures Fence(b, r) && b.runs[r] == a.runs[r]
  {
    forall later | later in b.runs && FinalizedWait(b, later) ensures later <= r {
      assert FinalizedWait(a, later);
    }
  }

  // ---------- scopes at the fixpoint ----------

  ghost function Depth(s: Scope): nat {
    match s
    case ServerScope => 0
    case WaitTypeScope(_) => 1
    case OtherScope(_, None) => 0
    case OtherScope(_, Some(above)) => 1 + Depth(above)
  }

  /** A line of descent through stored scopes from `s` to a sampled scope. */
  ghost predicate DescentToSample(db: Db, s: Scope, path: seq<Scope>) {
    && path != [] && path[0] == s
    && (forall i | 0 <= i < |path| :: path[i] in db.scopes)
    && (forall i | 0 < i < |path| :: path[i].Parent() == Some(path[i - 1]))
    && (exists k | k in db.samples :: k.scope == path[|path| - 1])
  }

  lemma {:induction false} DepthBounded(scopes: set<Scope>) returns (bound: nat)
    ensures forall s | s in scopes :: Depth(s) <= bound
    decreases scopes
  {
    if s :| s in scopes {
      var rest := DepthBounded(scopes - {s});
      bound := Max(rest, Depth(s));
      assert scopes == (scopes - {s}) + {s};
    } else {
      bound := 0;
    }
  }

  lemma {:induction false} Descend(db: Db, s: Scope, bound: nat) returns (path: seq<Scope>)
    requires DeletableScopes(db) == {} && s in db.scopes && s != ServerScope
    requires forall x | x in db.scopes :: Depth(x) <= bound
    ensures DescentToSample(db, s, path)
    decreases bound - Depth(s)
  {
    assert s !in DeletableScopes(db);
    if k :| k in db.samples && k.scope == s {
      path := [s];
    } else {
      var c :| c in db.scopes && c.Parent() == Some(s);
      assert Depth(c) == Depth(s) + 1;
      var rest := Descend(db, c, bound);
      path := [s] + rest;
      forall i | 0 < i < |path| ensures path[i].Parent() == Some(path[i - 1]) {
        if i > 1 { assert path[i] == rest[i - 1] && path[i - 1] == rest[i - 2]; }
      }
      assert path[|path| - 1] == rest[|rest| - 1];
    }
  }

  /** After a purge that reached its fixpoint every remaining scope other than
    * the server leads to a sampled scope. */
  lemma FixpointScopesLeadToSamples(db: Db, rawCut: int, payloadCut: int, s: Scope)
    requires Fixpoint(db, rawCut, payloadCut) && s in db.scopes && s != ServerScope
    ensures exists path :: DescentToSample(db, s, path)
  {
    assert Matches(db, 4, rawCut, payloadCut) == 0;
    var bound := DepthBounded(db.scopes);
    var path := Descend(db, s, bound);
  }

  // ---------- each delete statement, and a batch of five, is such an effect ----------

  const NO_ROWS: seq<nat> := [0, 0, 0, 0, 0]

  function Sum(counts: seq<nat>): nat
    requires |counts| == STATEMENTS
  {
    counts[0] + counts[1] + counts[2] + counts[3] + counts[4]
  }

  /** What is gone from `a` in `b` are rows the i-th statement matches. */
  ghost predicate OnlyMatching(a: Db, b: Db, i: nat, rawCut: int, payloadCut: int) {
    && a.samples.Keys - b.samples.Keys <= (if i == 0 then ExpiredSamples(a, rawCut) else {})
    && a.payloads.Keys - b.payloads.Keys <= (if i == 1 then ExpiredPayloads(a, payloadCut) else {})
    && a.modules.Keys - b.modules.Keys <= (if i == 2 then DeletableModules(a, rawCut) else {})
    && a.runs.Keys - b.runs.Keys <= (if i == 3 then DeletableRuns(a, rawCut) else {})
    && a.scopes - b.scopes <= (if i == 4 then DeletableScopes(a) else {})
  }

  /** The i-th statement with TOP (n) deleted `rows` rows of its own table. */
  ghost predicate StatementCounts(a: Db, b: Db, i: nat, n: nat, rows: nat, rawCut: int, payloadCut: int)
    requires i < STATEMENTS
  {
    && rows == Min(n, Matches(a, i, rawCut, payloadCut))
    && (forall j | 0 <= j < STATEMENTS :: Rows(b, j) == Rows(a, j) - if j == i then rows else 0)
    && (rows == 0 ==> a == b)
  }

  /** The i-th statement with TOP (n) turned `a` into `b` and deleted `rows` rows. */
  ghost predicate StatementDone(a: Db, b: Db, i: nat, n: nat, rows: nat, rawCut: int, payloadCut: int)
    requires i < STATEMENTS
  {
    && PurgeEffect(a, b, rawCut, payloadCut) && OnlyMatching(a, b, i, rawCut, payloadCut)
    && StatementCounts(a, b, i, n, rows, rawCut, payloadCut)
  }

  /** A statement's effect and its row counts make it done. */
  lemma DoneWith(a: Db, b: Db, i: nat, n: nat, rows: nat, rawCut: int, payloadCut: int)
    requires i < STATEMENTS && PurgeEffect(a, b, rawCut, payloadCut) && OnlyMatching(a, b, i, rawCut, payloadCut)
    requires rows == Min(n, Matches(a, i, rawCut, payloadCut))
    requires forall j | 0 <= j < STATEMENTS :: Rows(b, j) == Rows(a, j) - if j == i then rows else 0
    requires rows == 0 ==> a == b
    ensures StatementDone(a, b, i, n, rows, rawCut, payloadCut)
  {
  }

  lemma SamplesPurgeEffect(a: Db, victims: set<SampleKey>, rawCut: int, payloadCut: int)
    requires Consistent(a) && victims <= ExpiredSamples(a, rawCut)
    ensures PurgeEffect(a, a.(samples := a.samples - victims), rawCut, payloadCut)
    ensures OnlyMatching(a, a.(samples := a.samples - victims), 0, rawCut, payloadCut)
  {
  }

  lemma SamplesCounted(a: Db, victims: set<SampleKey>)
    requires victims <= a.samples.Keys
    ensures var b := a.(samples := a.samples - victims);
      && (forall j | 0 <= j < STATEMENTS :: Rows(b, j) == Rows(a, j) - if j == 0 then |victims| else 0)
      && (|victims| == 0 ==> a == b)
  {
    MapMinusSize(a.samples, victims);
  }

  lemma SamplesPurge(a: Db, victims: set<SampleKey>, n: nat, rawCut: int, payloadCut: int)
    requires Consistent(a)
    requires victims <= ExpiredSamples(a, rawCut) && |victims| == Min(n, |ExpiredSamples(a, rawCut)|)
    ensures StatementDone(a, a.(samples := a.samples - victims), 0, n, |victims|, rawCut, payloadCut)
  {
    SamplesPurgeEffect(a, victims, rawCut, payloadCut);
    SamplesCounted(a, victims);
    DoneWith(a, a.(samples := a.samples - victims), 0, n, |victims|, rawCut, payloadCut);
  }

  lemma PayloadsPurgeEffect(a: Db, victims: set<nat>, rawCut: int, payloadCut: int)
    requires Consistent(a) && victims <= ExpiredPayloads(a, payloadCut)
    ensures PurgeEffect(a, a.(payloads := a.payloads - victims), rawCut, payloadCut)
    ensures OnlyMatching(a, a.(payloads := a.payloads - victims), 1, rawCut, payloadCut)
  {
  }

  lemma PayloadsCounted(a: Db, victims: set<nat>)
    requires victims <= a.payloads.Keys
    ensures var b := a.(payloads := a.payloads - victims);
      && (forall j | 0 <= j < STATEMENTS :: Rows(b, j) == Rows(a, j) - if j == 1 then |victims| else 0)
      && (|victims| == 0 ==> a == b)
  {
    MapMinusSize(a.payloads, victims);
  }

  lemma PayloadsPurge(a: Db, victims: set<nat>, n: nat, rawCut: int, payloadCut: int)
    requires Consistent(a)
    requires victims <= ExpiredPayloads(a, payloadCut) && |victims| == Min(n, |ExpiredPayloads(a, payloadCut)|)
    ensures StatementDone(a, a.(payloads := a.payloads - victims), 1, n, |victims|, rawCut, payloadCut)
  {
    PayloadsPurgeEffect(a, victims, rawCut, payloadCut);
    PayloadsCounted(a, victims);
    DoneWith(a, a.(payloads := a.payloads - victims), 1, n, |victims|, rawCut, payloadCut);
  }

  lemma ModulesPurgeEffect(a: Db, victims: set<ModuleKey>, rawCut: int, payloadCut: int)
    requires Consistent(a) && victims <= DeletableModules(a, rawCut)
    ensures PurgeEffect(a, a.(modules := a.modules - victims), rawCut, payloadCut)
    ensures OnlyMatching(a, a.(modules := a.modules - victims), 2, rawCut, payloadCut)
  {
  }

  lemma ModulesCounted(a: Db, victims: set<ModuleKey>)
    requires victims <= a.modules.Keys
    ensures var b := a.(modules := a.modules - victims);
      && (forall j | 0 <= j < STATEMENTS :: Rows(b, j) == Rows(a, j) - if j == 2 then |victims| else 0)
      && (|victims| == 0 ==> a == b)
  {
    MapMinusSize(a.modules, victims);
  }

  lemma ModulesPurge(a: Db, victims: set<ModuleKey>, n: nat, rawCut: int, payloadCut: int)
    requires Consistent(a)
    requires victims <= DeletableModules(a, rawCut) && |victims| == Min(n, |DeletableModules(a, rawCut)|)
    ensures StatementDone(a, a.(modules := a.modules - victims), 2, n, |victims|, rawCut, payloadCut)
  {
    ModulesPurgeEffect(a, victims, rawCut, payloadCut);
    ModulesCounted(a, victims);
    DoneWith(a, a.(modules := a.modules - victims), 2, n, |victims|, rawCut, payloadCut);
  }

  lemma RunsPurgeEffect(a: Db, victims: set<RunId>, rawCut: int, payloadCut: int)
    requires Consistent(a) && victims <= DeletableRuns(a, rawCut)
    ensures PurgeEffect(a, a.(runs := a.runs - victims), rawCut, payloadCut)
    ensures OnlyMatching(a, a.(runs := a.runs - victims), 3, rawCut, payloadCut)
  {
    var b := a.(runs := a.runs - victims);
    forall k | k in b.samples ensures k.run in b.runs { assert HasChildren(a, k.run); }
    forall p | p in b.payloads ensures b.payloads[p].run in b.runs { assert HasChildren(a, a.payloads[p].run); }
    forall k | k in b.modules ensures k.run in b.runs { assert HasChildren(a, k.run); }
  }

  lemma RunsCounted(a: Db, victims: set<RunId>)
    requires victims <= a.runs.Keys
    ensures var b := a.(runs := a.runs - victims);
      && (forall j | 0 <= j < STATEMENTS :: Rows(b, j) == Rows(a, j) - if j == 3 then |victims| else 0)
      && (|victims| == 0 ==> a == b)
  {
    MapMinusSize(a.runs, victims);
  }

  lemma RunsPurge(a: Db, victims: set<RunId>, n: nat, rawCut: int, payloadCut: int)
    requires Consistent(a)
    requires victims <= DeletableRuns(a, rawCut) && |victims| == Min(n, |DeletableRuns(a, rawCut)|)
    ensures StatementDone(a, a.(runs := a.runs - victims), 3, n, |victims|, rawCut, payloadCut)
  {
    RunsPurgeEffect(a, victims, rawCut, payloadCut);
    RunsCounted(a, victims);
    DoneWith(a, a.(runs := a.runs - victims), 3, n, |victims|, rawCut, payloadCut);
  }

  lemma ScopesPurgeEffect(a: Db, victims: set<Scope>, rawCut: int, payloadCut: int)
    requires Consistent(a) && victims <= DeletableScopes(a)
    ensures PurgeEffect(a, a.(scopes := a.scopes - victims), rawCut, payloadCut)
    ensures OnlyMatching(a, a.(scopes := a.scopes - victims), 4, rawCut, payloadCut)
  {
    var b := a.(scopes := a.scopes - victims);
    forall s | s in b.scopes && s.Parent().Some? ensures s.Parent().value in b.scopes {
      assert s.Parent().value !in DeletableScopes(a);
    }
  }

  lemma ScopesCounted(a: Db, victims: set<Scope>)
    requires victims <= a.scopes
    ensures var b := a.(scopes := a.scopes - victims);
      && (forall j | 0 <= j < STATEMENTS :: Rows(b, j) == Rows(a, j) - if j == 4 then |victims| else 0)
      && (|victims| == 0 ==> a == b)
  {
    assert |a.scopes - victims| == |a.scopes| - |victims|;
  }

  lemma ScopesPurge(a: Db, victims: set<Scope>, n: nat, rawCut: int, payloadCut: int)
    requires Consistent(a)
    requires victims <= DeletableScopes(a) && |victims| == Min(n, |DeletableScopes(a)|)
    ensures StatementDone(a, a.(scopes := a.scopes - victims), 4, n, |victims|, rawCut, payloadCut)
  {
    ScopesPurgeEffect(a, victims, rawCut, payloadCut);
    ScopesCounted(a, victims);
    DoneWith(a, a.(scopes := a.scopes - victims), 4, n, |victims|, rawCut, payloadCut);
  }

  lemma MapMinusSize<K, V>(m: map<K, V>, victims: set<K>)
    requires victims <= m.Keys
    ensures |m - victims| == |m| - |victims|
    ensures victims == {} ==> m - victims == m
  {
    assert (m - victims).Keys == m.Keys - victims;
    assert |m.Keys - victims| == |m.Keys| - |victims|;
  }

  /** The first `i` statements with TOP (n) have nothing to delete. */
  ghost predicate Idle(db: Db, i: nat, n: nat, rawCut: int, payloadCut: int)
    requires i <= STATEMENTS
  {
    n == 0 || forall j | 0 <= j < i :: Matches(db, j, rawCut, payloadCut) == 0
  }

  /** What the first `i` statements of a batch that began in `a` counted. */
  ghost predicate BatchCounts(a: Db, b: Db, i: nat, n: nat, deleted: seq<nat>, rawCut: int, payloadCut: int)
    requires i <= STATEMENTS && |deleted| == STATEMENTS
  {
    && (forall j | 0 <= j < STATEMENTS :: deleted[j] == Rows(a, j) - Rows(b, j))
    && (Sum(deleted) == 0 ==> a == b)
    && (Sum(deleted) == 0 <==> Idle(a, i, n, rawCut, payloadCut))
  }

  /** After the first `i` statements of a batch that began in `a`. */
  ghost predicate BatchDone(a: Db, b: Db, i: nat, n: nat, deleted: seq<nat>, rawCut: int, payloadCut: int)
    requires i <= STATEMENTS && |deleted| == STATEMENTS
  {
    PurgeEffect(a, b, rawCut, payloadCut) && BatchCounts(a, b, i, n, deleted, rawCut, payloadCut)
  }

  lemma BatchStart(a: Db, n: nat, rawCut: int, payloadCut: int)
    requires Consistent(a)
    ensures BatchDone(a, a, 0, n, NO_ROWS, rawCut, payloadCut)
  {
  }

  lemma RowsStep(a: Db, b: Db, c: Db, i: nat, rows: nat, deleted: seq<nat>)
    requires i < STATEMENTS && |deleted| == STATEMENTS
    requires forall j | 0 <= j < STATEMENTS :: deleted[j] == Rows(a, j) - Rows(b, j)
    requires forall j | 0 <= j < STATEMENTS :: Rows(c, j) == Rows(b, j) - if j == i then rows else 0
    ensures forall j | 0 <= j < STATEMENTS :: deleted[i := deleted[i] + rows][j] == Rows(a, j) - Rows(c, j)
  {
    forall j | 0 <= j < STATEMENTS ensures deleted[i := deleted[i] + rows][j] == Rows(a, j) - Rows(c, j) {
      assert deleted[j] == Rows(a, j) - Rows(b, j);
    }
  }

  lemma IdleStep(a: Db, i: nat, n: nat, rawCut: int, payloadCut: int)
    requires i < STATEMENTS
    ensures Idle(a, i + 1, n, rawCut, payloadCut) <==>
            Idle(a, i, n, rawCut, payloadCut) && Min(n, Matches(a, i, rawCut, payloadCut)) == 0
  {
  }

  lemma CountsStep(a: Db, b: Db, c: Db, i: nat, n: nat, rows: nat, deleted: seq<nat>, rawCut: int, payloadCut: int)
    requires i < STATEMENTS && |deleted| == STATEMENTS
    requires BatchCounts(a, b, i, n, deleted, rawCut, payloadCut)
    requires StatementCounts(b, c, i, n, rows, rawCut, payloadCut)
    ensures BatchCounts(a, c, i + 1, n, deleted[i := deleted[i] + rows], rawCut, payloadCut)
  {
    SumUpdate(deleted, i, rows);
    IdleStep(a, i, n, rawCut, payloadCut);
    RowsStep(a, b, c, i, rows, deleted);
  }

  lemma BatchStep(a: Db, b: Db, c: Db, i: nat, n: nat, rows: nat, deleted: seq<nat>, rawCut: int, payloadCut: int)
    requires i < STATEMENTS && |deleted| == STATEMENTS
    requires BatchDone(a, b, i, n, deleted, rawCut, payloadCut)
    requires StatementDone(b, c, i, n, rows, rawCut, payloadCut)
    ensures BatchDone(a, c, i + 1, n, deleted[i := deleted[i] + rows], rawCut, payloadCut)
  {
    PurgeEffectTransitive(a, b, c, rawCut, payloadCut);
    CountsStep(a, b, c, i, n, rows, deleted, rawCut, payloadCut);
  }

  predicate SameRows(a: Db, b: Db) {
    forall j | 0 <= j < STATEMENTS :: Rows(a, j) == Rows(b, j)
  }

  /** The statements of a batch leave every row count alone exactly if they had
    * nothing to delete. */
  lemma SameRowsIffIdle(a: Db, b: Db, i: nat, n: nat, deleted: seq<nat>, rawCut: int, payloadCut: int)
    requires i <= STATEMENTS && |deleted| == STATEMENTS && BatchCounts(a, b, i, n, deleted, rawCut, payloadCut)
    ensures SameRows(a, b) <==> Idle(a, i, n, rawCut, payloadCut)
  {
    if SameRows(a, b) {
      assert forall j | 0 <= j < STATEMENTS :: deleted[j] == 0;
    }
  }

  lemma SumUpdate(counts: seq<nat>, i: nat, rows: nat)
    requires i < STATEMENTS && |counts| == STATEMENTS
    ensures Sum(counts[i := counts[i] + rows]) == Sum(counts) + rows
  {
  }

  /** What a committed purge may have done after `batches` batches, of which the
    * last deleted `last` rows. */
  ghost predicate PurgeDone(a: Db, b: Db, batches: nat, last: nat, total: seq<nat>, rawCut: int, payloadCut: int)
    requires |total| == STATEMENTS
  {
    && PurgeEffect(a, b, rawCut, payloadCut)
    && (forall j | 0 <= j < STATEMENTS :: total[j] == Rows(a, j) - Rows(b, j))
    && TotalRows(b) + batches <= TotalRows(a) + (if last == 0 then 1 else 0)
    && (batches == 0 ==> a == b)
  }

  lemma PurgeStart(a: Db, rawCut: int, payloadCut: int)
    requires Consistent(a)
    ensures PurgeDone(a, a, 0, 1, NO_ROWS, rawCut, payloadCut)
  {
  }

  function Plus(x: seq<nat>, y: seq<nat>): (z: seq<nat>)
    requires |x| == STATEMENTS && |y| == STATEMENTS
    ensures |z| == STATEMENTS && forall j | 0 <= j < STATEMENTS :: z[j] == x[j] + y[j]
  {
    [x[0] + y[0], x[1] + y[1], x[2] + y[2], x[3] + y[3], x[4] + y[4]]
  }

  lemma PurgeStep(a: Db, b: Db, c: Db, batches: nat, last: nat, total: seq<nat>, n: nat, deleted: seq<nat>,
                  rawCut: int, payloadCut: int)
    requires |total| == STATEMENTS && |deleted| == STATEMENTS
    requires PurgeDone(a, b, batches, last, total, rawCut, payloadCut) && last > 0
    requires BatchDone(b, c, STATEMENTS, n, deleted, rawCut, payloadCut)
    ensures PurgeDone(a, c, batches + 1, Sum(deleted), Plus(total, deleted), rawCut, payloadCut)
    ensures Sum(deleted) == 0 && n > 0 ==> Fixpoint(c, rawCut, payloadCut)
  {
    PurgeEffectTransitive(a, b, c, rawCut, payloadCut);
    assert Rows(b, 0) - Rows(c, 0) == deleted[0] && Rows(b, 1) - Rows(c, 1) == deleted[1];
    assert Rows(b, 2) - Rows(c, 2) == deleted[2] && Rows(b, 3) - Rows(c, 3) == deleted[3];
    assert Rows(b, 4) - Rows(c, 4) == deleted[4];
  }
}
