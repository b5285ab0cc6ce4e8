# Framework protocols in Dafny

A verification project for the hardest logic of the SQL Server monitoring framework and its tooling. It models
five components and proves what they promise, for all inputs, runs and interleavings:

* **Snapshot capture and purge** (`Snapshot*.dfy`). The stored procedures that open a collection run, complete a
  wait-statistics capture by comparing it with the newest finalized run, and purge expired rows in bounded batches.
  Tables are maps in a class; the procedures are its methods, proved against specification functions. Histories are
  arbitrary interleavings of the procedures, and the main theorems speak about every reachable state.
* **Deployment generator** (`TextOps.dfy`, `Scanning.dfy`, `Lexer.dfy`, `Batches.dfy`, `BatchShapes.dfy`,
  `Quoting.dfy`, `OwnedPredicate.dfy`). The tokenizer, the batch splitter, the quoting layer and the static check that
  seed statements only touch framework-owned rows, related to three-valued SQL logic.
* **Lock diagnostics** (`LogRedaction.dfy`, `LogWriting.dfy`, `Utf8.dfy`, `UtcKeys.dfy`, `LockObservation.dfy`,
  `LockPhases.dfy`, `LockReport.dfy`, `LockRows.dfy`). The redacting log writer over interleaved streams, the lock
  observer over interleaved lines and samples, and the fitting of its report into size limits.
* **Bounded cgroup collector** (`BoundedReads.dfy`, `Cpusets.dfy`, `Decimals.dfy`, `Ratios.dfy`,
  `CgroupMounts.dfy`, `HierarchyMetrics.dfy`). Reads under a shared budget, interval normalization, selection of the
  deepest covering mount, and limits admitted only when three observations of every level agree.
* **Report validator and scope closure** (`SeriesCoverage.dfy`, `ScopeClosure.dfy`).

`Common.dfy` holds small types and set facts. `dafny verify dfyconfig.toml` verifies the whole project.

## How the code is read

* Snapshot tables use natural keys: a scope is identified by its type, parent and identity, not by a generated number,
  and a hash of a text is the text itself (hashes are taken to be injective). A wait type is its rank in the binary
  collation. `NEWID()` is a parameter; that it is fresh is part of a history step. `DELETE TOP (n)` deletes some
  min(n, matching) rows. A cycle for a wait run is completed only when every finalized wait run is older, which is
  what serialized cycles mean. The released 1.2.0 procedure bodies are modelled.
* Where a promise is false of the code, the code is kept, an input is given and the exact condition is proved: purge
  counters recorded after a failed batch include rows the rollback restored (`RolledBackRowsAreCounted`, exactly when:
  `CountersExactly`); a script is rejected by the splitter when a separator-like line begins inside a token
  (`ForeignLineRejected`, exactly when: `SplitLosesNothing`); chunked redaction is exact only for border-free secrets
  (`BorderBreaksRedaction`, exactly when: `ChunkedRedactionExactly`); a WHERE of a subquery before a statement's own is
  taken for it (`SubqueryTouchesCustomRow`, exactly when: `ConditionFound`).
* The owned-row check reads an AND inside a CASE outside parentheses as a connective (`CaseDefeatsTheCheck`). For this
  one no exact condition is proved: the form of conditions that `AcceptedRowsAreOwned` asks for (`WellFormed`: BETWEEN
  apart, AND and OR stand outside parentheses only as connectives) is sufficient, not necessary.
* A completion may fail at any statement: its failure is a parameter of the procedure and of the history step, and the
  error number decides the status the run is closed with.
* The owned-row theorems assume of a row's reading only that each comparison of `IsFrameworkDefault` with a number,
  unqualified or qualified by the target's own alias, compares the target row's flag with that number (`ReadsFlag`).
* A BETWEEN is modelled separately from other comparisons because the owned-row check sees its AND as a
  connective; the two halves are assumed not to read as the flag comparison themselves.
* An oversized lock report is judged by the size from before it was flagged, so it loses at least one sample even if
  the flagged report would fit; `Encode` states this.

## Model

| member | source | states |
|---|---|---|
| `SnapshotHistory.EpochsOfEveryHistory` | Code/Tests/Integration/Deployment_Prepare_Runtime.py:1529-1590 | In every state reachable by any interleaving of cycles, purges and other collectors: logged runs that share an epoch form an unbroken chain in which each run names the one before as predecessor and base, written types only grow, no counter falls, and the stored deltas of a type add up to last value minus first |
| `SnapshotHistory.NewestRunSurvivesEveryHistory` | Code/Tests/Integration/Deployment_Prepare_Runtime.py:1910-1929 | In every reachable state the newest finalized wait run still has its row unchanged, is the purge fence, and is what the next capture reads as predecessor |
| `SnapshotHistory.RetentionInEveryHistory` | Code/Tests/Integration/Deployment_Prepare_Runtime.py:1519-1544 | In every reachable state the next completion retains the epoch if and only if its source is valid and the newest run is a capture meeting an explicit condition on stored samples, limits, engine, window and counters |
| `SnapshotHistory.StepPreserves` | Code/Tests/Integration/Deployment_Prepare_Runtime.py:753-1978 | Every step (open a run, complete it, purge, another collector's writes) keeps the state invariant that ties the tables to the log of finalized wait runs |
| `SnapshotHistory.TraceInv` | Code/Tests/Integration/Deployment_Prepare_Runtime.py:753-1978 | The invariant holds in every state of every run of the protocol, failing statements included |
| `SnapshotHistory.EpochChain` | Code/Tests/Integration/Deployment_Prepare_Runtime.py:1537-1547 | Between two log entries of one epoch every entry continues its predecessor |
| `SnapshotHistory.EpochMonotone` | Code/Tests/Integration/Deployment_Prepare_Runtime.py:1479-1483 | Along an epoch the written types grow and all four counters are nondecreasing |
| `SnapshotHistory.DeltasTelescope` | Code/Tests/Integration/Deployment_Prepare_Runtime.py:1583-1590 | Along an epoch the stored delta candidates of a type telescope |
| `SnapshotHistory.DeltaOf` | Code/Tests/Integration/Deployment_Prepare_Runtime.py:1583-1590 | A continued capture stores, for each type of its predecessor, exactly the change of the counter, which is not negative |
| `SnapshotHistory.PredecessorIsNewest` | Code/Tests/Integration/Deployment_Prepare_Runtime.py:1200-1206 | What a capture reads as its predecessor is the newest log entry, even after purges |
| `SnapshotHistory.FailedBreaksEpoch` | Code/Tests/Integration/Deployment_Prepare_Runtime.py:1468-1473 | A failed newest run is never continued |
| `SnapshotOutcome.CaptureOfEveryHistory` | Code/Tests/Integration/Deployment_Prepare_Runtime.py:1487-1602 | In every reachable state, of every completed capture: the types it stores are the smallest wanted ones up to the limit, with the source's own counters, their status, and for compared types the three changes, and nothing else; its status is the first of twelve causes in order, and its epoch decision the one whose ground is given, both in terms of the newest log entry, the purged samples, the limit and the source; epoch, base, context sample, run row and module rows follow, and other runs' samples stay |
| `SnapshotOutcome.NextStatus` | Code/Tests/Integration/Deployment_Prepare_Runtime.py:1519-1536 | Each comparison status is stored if and only if it is the first in order whose cause is given: source empty, limited, no predecessor, predecessor failed, limited or empty, its context gone, a sample gone, other engine, window not later, a type missing, a counter fallen, nothing to compare |
| `SnapshotOutcome.NextDecision` | Code/Tests/Integration/Deployment_Prepare_Runtime.py:1538-1544 | Each epoch decision is taken if and only if its ground is given: no predecessor; its context held and another engine; all its samples held and a counter fallen; none of the causes before the last two statuses; otherwise a break |
| `SnapshotOutcome.PredecessorRead` | Code/Tests/Integration/Deployment_Prepare_Runtime.py:1200-1222 | What is read of the newest run when any of its samples may be purged: the context is valid exactly if its sample is held, the raw values exactly if all are |
| `SnapshotOutcome.ClosedLeaves` | Code/Tests/Integration/Deployment_Prepare_Runtime.py:1708-1745 | A failed run is closed with no samples under its error number, as denied, target unavailable or handled error by that number, or left open |
| `SnapshotOutcome.FailedSourceLeaves` | Code/Tests/Integration/Deployment_Prepare_Runtime.py:1687-1704 | A failed source closes its run with no samples and the status of its own kind |
| `SnapshotEnding.CompletionEnds` | Code/Tests/Integration/Deployment_Prepare_Runtime.py:998-1748 | Every completion ends in one of these ways: refused or not its own run, tables unchanged; closed under the first error that arises, by number; a stored capture of a complete source; a run without metrics of a failed one |
| `SnapshotEnding.FreshEpochsAreTaken` | Code/Tests/Integration/Deployment_Prepare_Runtime.py:1545-1548 | In every reachable state a fresh identifier other than zero is never refused |
| `SnapshotDecision.PredecessorTrusted` | Code/Tests/Integration/Deployment_Prepare_Runtime.py:1332-1376 | The next capture accepts the predecessor's context, quantities and raw values exactly when no sample of it was removed, and then reads back the rows, engine, window and epoch it wrote |
| `SnapshotDecision.DamageBreaksEpoch` | Code/Tests/Integration/Deployment_Prepare_Runtime.py:1519-1543 | If a purge removed any sample of the predecessor, the next capture neither retains the epoch nor stores a delta candidate |
| `SnapshotDecision.RetainCondition` | Code/Tests/Integration/Deployment_Prepare_Runtime.py:1519-1543 | The epoch is retained if and only if a condition on the tables and the source holds |
| `SnapshotDecision.RetainContinues` | Code/Tests/Integration/Deployment_Prepare_Runtime.py:1529-1547 | A retained capture takes over epoch and engine, starts after the predecessor's window, and compares every type the predecessor wrote |
| `SnapshotDecision.SelectionFacts` | Code/Tests/Integration/Deployment_Prepare_Runtime.py:1502-1517 | The rows written are the lowest eligible types in collation order, at most MaxRows of them, all of them unless limited, with their current counters |
| `SnapshotDecision.DecisionFacts` | Code/Tests/Integration/Deployment_Prepare_Runtime.py:1519-1543 | The comparison status and the epoch decision always form a pair the validator admits |
| `SnapshotDecision.WriterContract` | Code/Tests/Integration/Deployment_Prepare_Runtime.py:1486-1550 | Every capture the procedure stores meets the writer's contract and takes the predecessor's epoch or the new identifier |
| `SnapshotDecision.CaptureQuantity` | Code/Tests/Integration/Deployment_Prepare_Runtime.py:1656-1659 | A successful completion stored 5W + 3C + 1 samples with C <= W <= MaxRows, at most 8 MaxRows + 1, and its run row says so, so the procedure's own checks never fail |
| `SnapshotDecision.InsertedSamples` | Code/Tests/Integration/Deployment_Prepare_Runtime.py:1576-1594 | The samples of the completed run are exactly those of its capture and no other sample changed |
| `SnapshotAgreement.WriterMeetsValidator` | Code/Tests/Integration/Deployment_Prepare_Runtime.py:1332-1465 | A capture whose samples are untouched passes every context, quantity, status and raw check of the next capture and is read back unchanged |
| `SnapshotAgreement.ContextAccepted` | Code/Tests/Integration/Deployment_Prepare_Runtime.py:1332-1376 | The context text of an untouched capture passes all context checks |
| `SnapshotAgreement.RawAccepted` | Code/Tests/Integration/Deployment_Prepare_Runtime.py:1395-1465 | The samples of an untouched capture pass all raw checks |
| `SnapshotAgreement.SampleQuantity` | Code/Tests/Integration/Deployment_Prepare_Runtime.py:1656-1657 | A capture with W types of which C are comparable has exactly 5W + 3C + 1 distinct sample keys |
| `SnapshotStore.Store.PrepareCollectionCycle` | Code/Tests/Integration/Deployment_Prepare_Runtime.py:829-890 | Opens one running row exactly when the collector is enabled, within budget and due; otherwise nothing (waits) or one closed row |
| `SnapshotStore.Store.CompleteWaitStatsCycle` | Code/Tests/Integration/Deployment_Prepare_Runtime.py:998-1748 | The new tables and outcome are those of the specification function: on success, on a failed source, and when a statement fails before the own run, before the checks or at the commit, where the writes are rolled back and the run is closed with its error, or left open if that fails too |
| `SnapshotStore.Store.StoreCapture` | Code/Tests/Integration/Deployment_Prepare_Runtime.py:1552-1680 | Writes scopes, samples, payload, modules and the run row of one capture |
| `SnapshotStore.Store.StoreFailure` | Code/Tests/Integration/Deployment_Prepare_Runtime.py:1687-1704 | Closes the own run without samples after a failed source |
| `SnapshotStore.Store.CloseOwnRun` | Code/Tests/Integration/Deployment_Prepare_Runtime.py:1708-1745 | After a rollback closes the own run with the status its error number stands for, unless closing fails or would end it before its start |
| `SnapshotStore.Store.DeleteRuns` | Code/Tests/Integration/Deployment_Prepare_Runtime.py:1910-1932 | Deletes min(n, matching) runs, each of them childless, expired and not the fence in the old tables, and nothing else |
| `SnapshotStore.Store.DeleteScopes` | Code/Tests/Integration/Deployment_Prepare_Runtime.py:1934-1941 | Deletes min(n, matching) scopes, each of them a leaf without samples in the old tables, never the server scope, and nothing else |
| `SnapshotStore.Store.RunBatch` | Code/Tests/Integration/Deployment_Prepare_Runtime.py:1882-1944 | One batch either performs its five statements or, on a failure, leaves the tables as they were |
| `SnapshotStore.Store.RunBatches` | Code/Tests/Integration/Deployment_Prepare_Runtime.py:1880-1946 | Any number of batches: integrity and unexpired rows are kept at every batch boundary |
| `SnapshotStore.Store.PurgeExpiredData` | Code/Tests/Integration/Deployment_Prepare_Runtime.py:1841-1975 | When the purge is refused or skipped, and otherwise its record and effect: only samples and payloads older than their own retention days, module rows of expired runs with neither, expired childless runs other than the newest finalized wait run, and unused scopes are gone; AVAILABLE with positive batch size leaves none of them; an error exactly at the batch that fails, a limited run deleted a row in every batch, and the counters are the row differences if and only if the run did not fail, the batch size is 0, or no delete predicate before the failing statement matches a row |
| `SnapshotStore.CountersExactly` | Code/Tests/Integration/Deployment_Prepare_Runtime.py:1948-1974 | For every purge record: its counters are true of the tables before and after exactly under that condition |
| `SnapshotStore.RolledBackRowsAreCounted` | Code/Tests/Integration/Deployment_Prepare_Runtime.py:1963-1974 | A purge record of a failed first batch with the same tables before and after, whose first counter is 1 |
| `SnapshotStore.WaitRunOpensExactly` | Code/Tests/Integration/Deployment_Prepare_Runtime.py:837-862 | A wait run opens exactly if the collector is enabled, the budget is kept and, unless forced, the interval has passed since the newest finalized wait run, successful or not |
| `SnapshotStore.PurgeKeepsDue` | Code/Tests/Integration/Deployment_Prepare_Runtime.py:848-860 | No purge changes when the next wait run is due, because the newest finalized one is never purged |
| `SnapshotDue.PreparedExactly` | Code/Tests/Integration/Deployment_Prepare_Runtime.py:829-862 | Each answer of a preparation has its cause, for both collectors: off; over budget; the newest counted run, for waits failed ones included, ended less than the interval ago and nothing forced; otherwise it collects |
| `SnapshotDue.PreparedRow` | Code/Tests/Integration/Deployment_Prepare_Runtime.py:866-890 | The row that is opened is running or closed with the reason, which the module row repeats |
| `SnapshotDue.PurgeDueExactly` | Code/Tests/Integration/Deployment_Prepare_Runtime.py:1855-1871 | A purge is due unless the newest successful one ended less than the interval ago |
| `SnapshotRetention.PurgedWithReason` | Code/Tests/Integration/Deployment_Prepare_Runtime.py:1885-1941 | Every purge removes rows only with reason, row by row, and changes none |
| `SnapshotRetention.FixpointIsClean` | Code/Tests/Integration/Deployment_Prepare_Runtime.py:1885-1941 | When no delete predicate matches, nothing is left that may go |
| `SnapshotStore.DeleteTop` | Code/Tests/Integration/Deployment_Prepare_Runtime.py:1885-1887 | Some min(n, matching) of the matching rows, the choice unspecified |
| `SnapshotStore.PreparedRunIsOwn` | Code/Tests/Integration/Deployment_Prepare_Runtime.py:999-1009 | The run just opened meets the completion procedure's demand for its own empty running row |
| `SnapshotStore.ReportFollows` | Code/Tests/Integration/Deployment_Prepare_Runtime.py:1948-1961 | The recorded purge row follows from what the batches did |
| `SnapshotPurge.PurgeEffectTransitive` | Code/Tests/Integration/Deployment_Prepare_Runtime.py:1880-1946 | Deleting only expired rows, never the fence, with referential integrity, composes over statements and batches |
| `SnapshotPurge.FenceSurvives` | Code/Tests/Integration/Deployment_Prepare_Runtime.py:1916-1929 | The latest finalized wait run is still there and still the latest after any purge |
| `SnapshotPurge.FixpointScopesLeadToSamples` | Code/Tests/Integration/Deployment_Prepare_Runtime.py:1934-1938 | When no delete predicate matches, every remaining scope but the server's leads through child scopes to one with a sample |
| `SnapshotPurge.RunsPurgeEffect` | Code/Tests/Integration/Deployment_Prepare_Runtime.py:1910-1929 | Deleting any childless expired non-fence runs keeps integrity and all unexpired rows |
| `SnapshotPurge.ModulesPurgeEffect` | Code/Tests/Integration/Deployment_Prepare_Runtime.py:1899-1905 | Deleting module rows of expired childless runs keeps integrity and all unexpired rows |
| `SnapshotPurge.ScopesPurgeEffect` | Code/Tests/Integration/Deployment_Prepare_Runtime.py:1934-1938 | Deleting unused leaf scopes keeps every parent link |
| `SnapshotPurge.PurgeStep` | Code/Tests/Integration/Deployment_Prepare_Runtime.py:1880-1946 | One committed batch extends the purge: counters, effect and progress together |
| `Lexer.Tokens` | Code/Install/deployment_generator.py:31-92 | The loop returns the tokens of the specification, or its error |
| `Lexer.NextStep` | Code/Install/deployment_generator.py:35-91 | One iteration: what is skipped, emitted or rejected at a position |
| `Lexer.SkipQuoted` | Code/Install/deployment_generator.py:59-68 | Finds the closing quote, doubled quotes skipped |
| `Lexer.SkipComment` | Code/Install/deployment_generator.py:41-53 | Finds the end of a nested block comment |
| `Lexer.LexStepIsLocal` | Code/Install/deployment_generator.py:31-92 | A token or skipped piece is recognized the same in any prefix that contains it |
| `Lexer.LexStepFails` | Code/Install/deployment_generator.py:31-92 | Cut right after a line feed inside it a string, identifier or comment is unclosed; a trailing blank does not change a failure |
| `Scanning.TokenSpans` | Code/Install/deployment_generator.py:31-92 | Token spans are ordered, disjoint and equal to the text they carry, with only skipped text between them |
| `Scanning.ScanFromBoundary` | Code/Install/deployment_generator.py:31-92 | From any boundary the remaining tokens are the rest, and the text before it has exactly the tokens before it |
| `Scanning.UnreachedLineStartFails` | Code/Install/deployment_generator.py:31-92 | Text cut at a line start that is no boundary does not tokenize |
| `Batches.SplitLosesNothing` | Code/Install/deployment_generator.py:130-154 | For every script: batches hold in order exactly its tokens other than the separators; a script that tokenizes and has no unsupported GO line is rejected if and only if some separator line begins inside a token or comment |
| `Batches.PartsKeep` | Code/Install/deployment_generator.py:145-154 | From any part start on the cut parts keep exactly the other tokens |
| `Batches.OwnLineCuts` | Code/Install/deployment_generator.py:136-150 | Around a GO alone on its line, the text before has the tokens before and the text after the tokens after |
| `Batches.ForeignLineFails` | Code/Install/deployment_generator.py:136-150 | A GO later on a separator-like line whose start lies inside a token or comment leaves text that does not tokenize |
| `Batches.ForeignLineRejected` | Code/Install/deployment_generator.py:130-154 | A concrete script that tokenizes is rejected although it holds no repeat count |
| `Batches.SplitBatches` | Code/Install/deployment_generator.py:130-154 | The loops compute the specified split |
| `Batches.CollectSeparators` | Code/Install/deployment_generator.py:133-144 | The separators found, or the error for an unsupported GO line |
| `Batches.CutParts` | Code/Install/deployment_generator.py:145-154 | The parts between the separator lines, blank ones left out |
| `BatchShapes.SeparatorLineExactly` | Code/Install/deployment_generator.py:141-142 | A separator line is white space, GO in either case, white space, and nothing or a line comment |
| `BatchShapes.BadSeparatorLineExactly` | Code/Install/deployment_generator.py:143-144 | A line is unsupported when the word GO begins it, if it is no separator line |
| `BatchShapes.UnsupportedExactly` | Code/Install/deployment_generator.py:133-144 | A script is unsupported exactly if a token stands on an unsupported line; otherwise the separators are all those found |
| `BatchShapes.BatchesAreProper` | Code/Install/deployment_generator.py:145-154 | No batch is empty, has outer white space or holds no token |
| `Quoting.QuotedNameIsOneToken` | Code/Install/deployment_generator.py:95-104 | A quoted name is one identifier token that reads back as the name |
| `Quoting.LiteralIsOneToken` | Code/Install/deployment_generator.py:107-115 | A quoted literal is one string token that reads back as the value |
| `Quoting.PrintedTextReadsBack` | Code/Install/deployment_generator.py:31-92 | Any printed sequence of words, punctuation, names and literals tokenizes back to itself |
| `Quoting.InvokedStatementIsRecovered` | Code/Install/deployment_generator.py:496-498 | The statement wrapped by invoke is the value of the last string token of the wrapper |
| `Quoting.NestedLiterals` | Code/Install/deployment_generator.py:107-115 | Quoting and unquoting are inverse at any nesting depth |
| `TextOps.UndoubledDoubled` | Code/Install/deployment_generator.py:95-115 | Undoubling a character inverts doubling it |
| `OwnedPredicate.OwnsExactly` | Code/Install/deployment_generator.py:900-929 | On the printed form of any search condition the check accepts exactly if, outer parentheses removed, it is no OR and one operand of its outermost AND chain is the flag comparison; it never reports a parenthesis error |
| `OwnedPredicate.FlagComparisonAccepted` | Code/Install/deployment_generator.py:921-928 | An unqualified comparison of the flag is accepted exactly if it is with 1, whatever token stands there |
| `OwnedPredicate.QualifiedComparisonAccepted` | Code/Install/deployment_generator.py:921-928 | A qualified one exactly if it is with 1 and the qualifier is the target's own alias |
| `OwnedPredicate.CaseOfConnectivesIsIgnored` | Code/Install/deployment_generator.py:915-919 | The case in which AND and OR are written does not change the verdict |
| `OwnedPredicate.AcceptedRowsAreOwned` | Code/Install/deployment_generator.py:900-929 | If each comparison of the flag with a number, unqualified or qualified by the target's own alias, reads the target's row, every row for which an accepted condition is true in three-valued logic has IsFrameworkDefault = 1 |
| `OwnedPredicate.CustomRowsSurvive` | Code/Install/deployment_generator.py:979-1000 | No sequence of UPDATE and DELETE statements, given as token lists and admitted by the extraction of the condition and the check on it, changes or removes a custom row, if none has a WHERE before its own |
| `OwnedPredicate.StatementKeepsCustomRow` | Code/Install/deployment_generator.py:979-1000 | One such statement leaves a custom row as it was, whatever it is joined with |
| `OwnedPredicate.ConditionFound` | Code/Install/deployment_generator.py:994-997 | The condition that is extracted is the statement's own if and only if no WHERE stands before it in the statement |
| `OwnedPredicate.SubqueryDefeatsTheCheck` | Code/Install/deployment_generator.py:994-999 | A statement whose SET takes a value from a subquery with the flag comparison between ANDs is admitted, whatever its own condition is |
| `OwnedPredicate.SubqueryTouchesCustomRow` | Code/Install/deployment_generator.py:994-999 | One such statement, admitted, whose execution removes a custom row |
| `OwnedPredicate.NoConditionRefused` | Code/Install/deployment_generator.py:997-999 | A statement without WHERE is refused |
| `OwnedPredicate.CaseDefeatsTheCheck` | Code/Install/deployment_generator.py:900-929 | CASE WHEN a AND IsFrameworkDefault = 1 AND b THEN 1 ELSE 0 END = 0 is accepted for any comparisons a and b, and is true for every custom row |
| `OwnedPredicate.OwnsPredicate` | Code/Install/deployment_generator.py:900-929 | The loops compute the specified check |
| `OwnedPredicate.CutParts` | Code/Install/deployment_generator.py:907-920 | The loop over tokens finds the parts between top-level ANDs, or an OR |
| `OwnedPredicate.UnwrapPart` | Code/Install/deployment_generator.py:902-905 | The loop removes every enclosing pair of parentheses |
| `OwnedPredicate.Matching` | Code/Install/deployment_generator.py:118-127 | The position where the parenthesis depth returns to zero, or an error |
| `LogRedaction.ChunkedRedaction` | Code/Tests/Integration/CI_LockTimeout_Diagnostics.py:343-363 | For an empty or border-free secret, however a stream is split into chunks, what is emitted is the redaction of the whole: the mark in the place of every occurrence, taken from the left |
| `LogRedaction.ChunkedRedactionExactly` | Code/Tests/Integration/CI_LockTimeout_Diagnostics.py:354-361 | For a secret that does not begin with the mark, chunked redaction is exact for every chunking if and only if the secret is border-free |
| `LogRedaction.BorderBreaksRedaction` | Code/Tests/Integration/CI_LockTimeout_Diagnostics.py:354-361 | For a secret with a border, two overlapping copies in one chunk are emitted differently from the redaction of the whole |
| `LogRedaction.CutAvoidsOccurrences` | Code/Tests/Integration/CI_LockTimeout_Diagnostics.py:356-360 | The cut never falls inside an occurrence of a border-free secret |
| `LogRedaction.RedactSplits` | Code/Tests/Integration/CI_LockTimeout_Diagnostics.py:343-344 | Redaction distributes over a cut that no occurrence straddles |
| `LogRedaction.RedactMeans` | Code/Tests/Integration/CI_LockTimeout_Diagnostics.py:343-344 | The redaction of a text is the only text with the mark between the pieces that remain when every occurrence of the secret, taken from the left, is cut out |
| `LogRedaction.SecretIsGone` | Code/Tests/Integration/CI_LockTimeout_Diagnostics.py:343-344 | No occurrence is left of a secret that shares no character with the mark |
| `LogRedaction.CutExactly` | Code/Tests/Integration/CI_LockTimeout_Diagnostics.py:356-360 | What may go out before the stream ends: all but the last characters, one fewer than the secret has, less those that would split the last occurrence reaching into them |
| `Utf8.CharReadsBack` | Code/Tests/Integration/CI_LockTimeout_Diagnostics.py:362-362 | The bytes of a character announce their number, spell its code point and are no more than needed (section 3 of RFC 3629) |
| `Utf8.EncodeIsInjective` | Code/Tests/Integration/CI_LockTimeout_Diagnostics.py:362-362 | Different texts have different bytes |
| `LogWriting.RedactionOfEveryStream` | Code/Tests/Integration/CI_LockTimeout_Diagnostics.py:347-367 | Over every interleaving of streams and every chunking, while nothing was dropped and no stream is reopened, a closed stream has been logged as exactly the UTF-8 bytes of its text with every occurrence of the secret replaced; if secret and mark share no character, no occurrence is left |
| `LogWriting.EveryStreamKept` | Code/Tests/Integration/CI_LockTimeout_Diagnostics.py:347-367 | Before a stream is closed, what was released of it is logged as its redaction and the rest is held back |
| `LogWriting.SizeStaysBounded` | Code/Tests/Integration/CI_LockTimeout_Diagnostics.py:363-367 | The log never exceeds its limit and consists of the pieces written, in order |
| `LogWriting.LogWriter.Put` | Code/Tests/Integration/CI_LockTimeout_Diagnostics.py:354-367 | One write: what may go out is added with the secret marked if it fits, and otherwise the log is incomplete; the rest is kept |
| `LogWriting.StepExactly` | Code/Tests/Integration/CI_LockTimeout_Diagnostics.py:354-367 | The log after a write is the only one in which what may go out is added, the secret marked, if it fits, and the rest is kept |
| `LockObservation.BlockerReportedExactly` | Code/Tests/Integration/CI_LockTimeout_Diagnostics.py:253-340 | For every interleaving of lines and samples: a blocker is reported if and only if there was a time-out and, at the first one, one of the 40 newest samples of the same session, taken after the phase's server start and within the window, shows that session in an LCK_ wait behind a positive session; no time-out is reported exactly if there was none |
| `LockObservation.FrozenIsFinal` | Code/Tests/Integration/CI_LockTimeout_Diagnostics.py:278-287 | The frozen record is written at most once |
| `LockObservation.FrozenContents` | Code/Tests/Integration/CI_LockTimeout_Diagnostics.py:253-287 | It holds the phase, samples and trigger of the first time-out, in terms of the events before it |
| `LockObservation.RunTableError` | Code/Tests/Integration/CI_LockTimeout_Diagnostics.py:269-277 | A table time-out counts exactly if the last line that was not blank reported error 51010 |
| `LockObservation.RunSamples` | Code/Tests/Integration/CI_LockTimeout_Diagnostics.py:241-241 | The buffer holds the 40 newest stored samples |
| `LockObservation.AttributedProves` | Code/Tests/Integration/CI_LockTimeout_Diagnostics.py:59-79 | Attribution and search together find a blocker exactly if some sample is evidence for the phase |
| `LockObservation.Observation.Observe` | Code/Tests/Integration/CI_LockTimeout_Diagnostics.py:253-287 | One line changes the observer as specified |
| `LockObservation.Observation.Append` | Code/Tests/Integration/CI_LockTimeout_Diagnostics.py:304-316 | One sample is stored, the oldest dropped |
| `LockObservation.Observation.Close` | Code/Tests/Integration/CI_LockTimeout_Diagnostics.py:321-340 | The final report, with the deployment errors |
| `LockObservation.FindBlocker` | Code/Tests/Integration/CI_LockTimeout_Diagnostics.py:70-79 | The search finds a blocking row exactly if there is one |
| `LockPhases.ReportExactly` | Code/Tests/Integration/CI_LockTimeout_Diagnostics.py:59-67 | Phase, trigger, samples and truncation of a report in terms of the events before the first time-out: the samples are the recent ones of the phase's session among the newest forty, in order, attributed exactly if later than its start |
| `LockPhases.AttributedExactly` | Code/Tests/Integration/CI_LockTimeout_Diagnostics.py:59-67 | Attribution keeps the recent samples of the session, in order, and attributes those later than the start |
| `LockPhases.StartedExactly` | Code/Tests/Integration/CI_LockTimeout_Diagnostics.py:262-268 | The observer starts at the first marker that is no end and, for a deployment, is the phase it reaches |
| `LockPhases.ErrorsExactly` | Code/Tests/Integration/CI_LockTimeout_Diagnostics.py:253-319 | The errors of a run are those its events add, in order |
| `LockPhases.DeploymentErrorsExactly` | Code/Tests/Integration/CI_LockTimeout_Diagnostics.py:326-329 | The errors added at the end: no deployment began, or none reached its phase, although expected |
| `UtcKeys.KeyOrderIsChronological` | Code/Tests/Integration/CI_LockTimeout_Diagnostics.py:50-56 | Keys are ordered as text exactly like the instants they denote, to the seventh fractional digit |
| `UtcKeys.KeyIsStable` | Code/Tests/Integration/CI_LockTimeout_Diagnostics.py:50-56 | A key denotes the same instant and is its own key |
| `LockReport.Artifact.Encode` | Code/Tests/Integration/CI_LockTimeout_Diagnostics.py:370-382 | An oversized report loses its oldest samples, at least one if there are any and no more than needed; a claim that survives is still backed by a sample; what is returned in full fits |
| `LockReport.SummaryClaimIsProven` | Code/Tests/Integration/CI_LockTimeout_Diagnostics.py:253-430 | From the events to the printed summary, whatever was cut on the way: a summary that claims a blocker was preceded by a first time-out at which one of the 40 newest samples proved it, and begins with the row of that sample that shows it |
| `LockReport.ClaimOfRunIsKept` | Code/Tests/Integration/CI_LockTimeout_Diagnostics.py:321-430 | The summary of an encoded report claims a blocker if and only if the report still does and some selection of rows with the anchor fits |
| `LockReport.ClaimKeepsItsAnchor` | Code/Tests/Integration/CI_LockTimeout_Diagnostics.py:386-430 | A summary that claims a blocker fits the limit and begins with the request row that shows it |
| `LockReport.ClaimGivenUpExactly` | Code/Tests/Integration/CI_LockTimeout_Diagnostics.py:386-430 | A truthful claim is given up exactly if neither a trimmed nor the anchor-only summary fits |
| `LockReport.Summarize` | Code/Tests/Integration/CI_LockTimeout_Diagnostics.py:386-430 | The summary keeps the longest fitting choice of rows, then the anchor alone, then nothing |
| `LockReport.FindPair` | Code/Tests/Integration/CI_LockTimeout_Diagnostics.py:99-110 | The first waited-for lock whose resource the blocker was granted, with the first such grant |
| `LockReport.AnchorIsEvidence` | Code/Tests/Integration/CI_LockTimeout_Diagnostics.py:84-93 | A sample has an anchor row exactly if it is attributed to the phase and shows the blocker |
| `LockRows.SummaryRowsExactly` | Code/Tests/Integration/CI_LockTimeout_Diagnostics.py:386-411 | The untrimmed summary shows the newest sample with evidence, or else the newest, its rows in their layout, and the report's status unless no row shows what it claims |
| `LockRows.LayoutExactly` | Code/Tests/Integration/CI_LockTimeout_Diagnostics.py:82-125 | First the last blocked request, then the blocker's request and the pair of locks, then the rows that corroborate nothing, in order |
| `LockRows.SupportExactly` | Code/Tests/Integration/CI_LockTimeout_Diagnostics.py:94-118 | The first other request of the blocker, and the first wait for a lock it holds with the first such grant, each if there is one |
| `BoundedReads.ReadBounded` | Code/Tools/Linux_Cgroup_Native.py:660-718 | Charged bytes equal the reported count; AVAILABLE only at end of file, below the file limit, with exactly the delivered bytes; every other outcome has no value and a stated cause |
| `BoundedReads.Next` | Code/Tools/Linux_Cgroup_Native.py:680-714 | One admitted read call, its chunk always accepted by the budget |
| `BoundedReads.ReadBudget.AdmissionState` | Code/Tools/Linux_Cgroup_Native.py:299-304 | Refusal by deadline first, then by bytes |
| `BoundedReads.ReadBudget.Account` | Code/Tools/Linux_Cgroup_Native.py:306-309 | Accepts exactly the counts that fit and charges them |
| `BoundedReads.ReadAll` | Code/Tools/Linux_Cgroup_Reader.py:320-330 | Any sequence of bounded reads through one budget: the counts add up to the bytes charged, never above the limit, every outcome is explained by its own calls and by what all reads up to it left of the budget, and reads of one descriptor use its replies in turn |
| `Cpusets.Merge` | Code/Tools/Linux_Cgroup_Values.py:253-260 | One pass over the sorted intervals gives a sorted, disjoint, non-adjacent list of the same set |
| `Cpusets.ParseCpuset` | Code/Tools/Linux_Cgroup_Values.py:213-269 | The whole parse: the size limit, null characters, blank text, and otherwise for the pieces between the commas: the canonical intervals of exactly the numbers the pieces write, with their count, if every piece is one number or two joined by a hyphen, within the limits; or the error of the first faulty piece |
| `Cpusets.PieceRead` | Code/Tools/Linux_Cgroup_Values.py:235-251 | One piece is read as the item it writes, and refused for its own fault |
| `Cpusets.PiecesRead` | Code/Tools/Linux_Cgroup_Values.py:234-251 | All pieces are read exactly if each is accepted; otherwise the first faulty one names the error |
| `Cpusets.PrintedItemsRead` | Code/Tools/Linux_Cgroup_Values.py:213-269 | Items within the limits, printed with commas and outer white space, are read as the numbers they name |
| `Cpusets.OneResult` | Code/Tools/Linux_Cgroup_Values.py:213-269 | The text alone decides the result |
| `Cpusets.CanonicalIsUnique` | Code/Tools/Linux_Cgroup_Values.py:253-260 | Two canonical lists of one set are equal |
| `Cpusets.SameSetSameResult` | Code/Tools/Linux_Cgroup_Values.py:213-269 | Two valid texts have the same result if and only if the numbers written in them are the same CPUs |
| `Cpusets.CountIsCardinality` | Code/Tools/Linux_Cgroup_Values.py:261-261 | The reported count is the number of members |
| `Cpusets.SortSorts` | Code/Tools/Linux_Cgroup_Values.py:253-253 | Sorting rearranges the intervals in order |
| `Decimals.ParseU64Exactly` | Code/Tools/Linux_Cgroup_Values.py:87-97 | The length test changes nothing: a numeral converts exactly if its value fits in 64 bits |
| `CgroupMounts.SelectMount` | Code/Tools/Linux_Cgroup_Reader.py:197-213 | The result is the one mount whose root is the longest component-wise prefix of the member's path; none exactly if there is no such mount or a tie |
| `CgroupMounts.DeepestOf` | Code/Tools/Linux_Cgroup_Reader.py:202-213 | A mount is found exactly if it is deeper than every other covering mount |
| `CgroupMounts.ComponentsAreFaithful` | Code/Tools/Linux_Cgroup_Reader.py:179-187 | A path with components is determined by them |
| `CgroupMounts.ComponentsExactly` | Code/Tools/Linux_Cgroup_Reader.py:179-187 | The root has no components; any other path has the given ones exactly if it is a slash before each, each is proper, and there is no null character |
| `CgroupMounts.CoversExactly` | Code/Tools/Linux_Cgroup_Reader.py:202-209 | A cgroup2 mount covers a member exactly if the components of its root are the first ones of the member |
| `CgroupMounts.SplitJoin` | Code/Tools/Linux_Cgroup_Reader.py:184-194 | Splitting joined components gives them back |
| `CgroupMounts.DecodeEscaped` | Code/Tools/Linux_Cgroup_Metadata.py:236-239 | Every path survives being escaped and decoded |
| `CgroupMounts.DecodedIsEscaped` | Code/Tools/Linux_Cgroup_Metadata.py:236-239 | A field without raw blanks that decodes is the escaped form of what it decodes to |
| `CgroupMounts.InputTooLarge` | Code/Tools/Linux_Cgroup_Metadata.py:37-53 | Counting with an early stop decides whether the UTF-8 form exceeds the limit |
| `HierarchyMetrics.CeilingMeansTightest` | Code/Tools/Linux_Cgroup_Reader.py:719-746 | A ceiling is unavailable exactly if some level is unreadable or its three observations differ, absent only if no level has a limit, and otherwise the tightest limit of all levels |
| `HierarchyMetrics.LimitMetric` | Code/Tools/Linux_Cgroup_Reader.py:719-746 | The loop over levels computes that metric |
| `HierarchyMetrics.QuotaMetric` | Code/Tools/Linux_Cgroup_Reader.py:750-789 | The CPU quota is the smallest ratio of all levels in lowest terms, under the same agreement and a usable CPU set |
| `HierarchyMetrics.ChangedKeys` | Code/Tools/Linux_Cgroup_Reader.py:694-706 | A key counts as changed exactly if some level's observations of it differ |
| `HierarchyMetrics.Collector.DeriveMetrics` | Code/Tools/Linux_Cgroup_Reader.py:708-789 | Given the changed keys, metrics are derived only for a bound and selected hierarchy of supported types whose type key is not among them |
| `HierarchyMetrics.Collector.Run` | Code/Tools/Linux_Cgroup_Reader.py:792-810 | The whole run: metrics are set only if the closing fence was kept and the types are supported and unchanged; then each ceiling is missing exactly if some level's three observations do not agree on a usable limit and otherwise the tightest limit, and the quota likewise the smallest ratio |
| `HierarchyMetrics.QuotaMeansSmallest` | Code/Tools/Linux_Cgroup_Reader.py:750-789 | The quota is missing exactly if some level's limit or the CPU set was not read alike and usable three times, absent only if no level has one, and otherwise the smallest ratio in lowest terms |
| `HierarchyMetrics.QuotaIsReduced` | Code/Tools/Linux_Cgroup_Values.py:170-181 | The stored ratio is in lowest terms and equal in value to quota over period |
| `Ratios.GcdIsGreatest` | Code/Tools/Linux_Cgroup_Values.py:170-170 | The greatest common divisor divides both numbers and is divided by every common divisor |
| `Ratios.ReducedIsLowest` | Code/Tools/Linux_Cgroup_Values.py:170-180 | Dividing by it gives lowest terms of the same value |
| `SeriesCoverage.JudgedExactly` | Code/Tools/Validate_Ssis_Custom_Metrics_Report.py:227-283 | A series is accepted exactly if its observations are allowed, consistent and fit its watermark, and then its coverage is the one read off the observations |
| `SeriesCoverage.GapExactly` | Code/Tools/Validate_Ssis_Custom_Metrics_Report.py:261-265 | First, last and count decide exactly whether the distinct numbers are those from one to the expected final one |
| `SeriesCoverage.KnownValuesFall` | Code/Tools/Validate_Ssis_Custom_Metrics_Report.py:276-279 | The values in sequence order are nondecreasing exactly if no known value exceeds a later one |
| `SeriesCoverage.AdjacentDecides` | Code/Tools/Validate_Ssis_Custom_Metrics_Report.py:278-278 | Comparing neighbours decides the same as comparing all pairs |
| `SeriesCoverage.OrderAndRepetitionDoNotMatter` | Code/Tools/Validate_Ssis_Custom_Metrics_Report.py:227-283 | Reordering or repeating observations changes no verdict but the duplicate count |
| `SeriesCoverage.CollectExactly` | Code/Tools/Validate_Ssis_Custom_Metrics_Report.py:227-259 | Collecting by sequence succeeds exactly on allowed, consistent observations and keeps each of them |
| `SeriesCoverage.ErrorExactly` | Code/Tools/Validate_Ssis_Custom_Metrics_Report.py:227-268 | The error of a series is that of its first faulty observation, or else that of its watermark |
| `SeriesCoverage.ListedInPlace` | Code/Tools/Validate_Ssis_Custom_Metrics_Report.py:269-283 | Verdicts are reported in one fixed order, each at most once |
| `SeriesCoverage.JudgeSeries` | Code/Tools/Validate_Ssis_Custom_Metrics_Report.py:227-283 | The loop computes the specified verdict |
| `ScopeClosure.SelectedScope` | Code/Tools/Rule_Context_Cache.py:35-64 | The result is the least closed set containing the scope's roots, in increasing order, with the dependencies of exactly those sources; or the first error |
| `ScopeClosure.RefusedExactly` | Code/Tools/Rule_Context_Cache.py:35-53 | An index is refused for the one check that fails first |
| `ScopeClosure.Close` | Code/Tools/Rule_Context_Cache.py:54-63 | The worklist ends with the least closed set, or an error exactly if a root is unknown |
| `ScopeClosure.SelectedAreReachable` | Code/Tools/Rule_Context_Cache.py:54-63 | The selected sources are exactly those a chain of dependencies from a root leads to |
| `ScopeClosure.Sorted` | Code/Tools/Rule_Context_Cache.py:64-64 | Every member once, in increasing order |

## Left out

- Concurrent overlapping wait runs: cycles are serialized, so at most one wait run is being completed at a time.
- Generated row identifiers and hash collisions in the snapshot tables: natural keys and injective hashes stand for them, so conflicts between a stored scope and its identity do not occur.
- JSON text, GZIP, collations and date formatting inside the procedures: contexts and samples are datatypes; the 8000-byte limit of the context text is not modelled.
- Permission, database-identity and package-version gates before a procedure's own run: a completion refused there is one outcome that changes nothing; their status codes are not distinguished. Opening a run is assumed not to fail.
- Completion of performance-counter runs: other collectors may write and close their own runs arbitrarily.
- The fence fragment of later package versions, which protects more collectors in the same way.
- `preflight`, `archive`, `constraint_template` and the other generated catalog checks: string assembly whose meaning lies in SQL Server.
- `stored_module_definition`, `dml_target` and the loading of sources: the alias and the statement position are given to the model.
- OwnedPredicate.CustomRowsSurvive: requires that no statement has a WHERE before its own and that conditions are well formed; `SubqueryTouchesCustomRow` and `CaseDefeatsTheCheck` show the code does not promise more.
- OwnedPredicate.OwnsExactly: comparisons with an AND or OR of their own outside parentheses, other than BETWEEN, are outside its conditions; a CASE has a single WHEN.
- Characters outside ASCII in keywords and numerals (`\d`, `\b` and `upper` on such characters): words and digits are ASCII, any other character is a token of its own.
- LogRedaction.ChunkedRedactionExactly: for secrets that begin with the mark `[REDACTED]` only the direction from border-free to exact is proved.
- Order of bytes of different streams in the log beyond their order of writing, and file errors of the log.
- Recognition of message lines by regular expressions: a line is given as a phase marker, an error message, a table message, another or a blank line.
- Threads and the observer's own connection: its samples and failures arrive as events in any order. A null blocking session, on which the comparison would fail, is not modelled.
- JSON size of a report: any function of the report; that building the summary leaves the report unchanged is inherent in values.
- Linux system calls and namespace checks: the three observations of each file and whether the closing fence was kept are given.
- Field-by-field parsing of membership and mountinfo records and of keyed counters: branch-and-return classification.
- HierarchyMetrics.QuotaMetric: requires positive ratios, which the parser guarantees (`QuotaIsReduced`).
- Shape checks of the metrics report (identifiers, timestamps, numerals, definitions, scopes) and the list of series with several epochs.
- SeriesCoverage.JudgedExactly: requires a declared final number of at least one, which the parser guarantees.
- Validity of a source path is a parameter of `SelectedScope`.
- Session planning and re-capture of the rule context cache: they call a planner that is not part of this model.
