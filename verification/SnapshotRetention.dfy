/** What retention removes and what it leaves, row by row. */
module SnapshotRetention {
  import opened Common
  import opened SnapshotTables
  import opened SnapshotPurge

  /** Rows are removed only with reason, and what is left is unchanged: a sample or
    * payload past its cut-off; a module row of an expired run that has no sample or
    * payload left; an expired run that has nothing left and is not the newest
    * finalized Wait run; a scope other than the server that nothing refers to. */
  ghost predicate OnlyExpiredGone(a: Db, b: Db, rawCut: int, payloadCut: int) {
    && (forall k | k in b.samples :: k in a.samples && b.samples[k] == a.samples[k])
    && (forall k | k in a.samples && k !in b.samples :: a.samples[k].collected < rawCut)
    && (forall p | p in b.payloads :: p in a.payloads && b.payloads[p] == a.payloads[p])
    && (forall p | p in a.payloads && p !in b.payloads :: a.payloads[p].captured < payloadCut)
    && (forall k | k in b.modules :: k in a.modules && b.modules[k] == a.modules[k])
    && (forall k | k in a.modules && k !in b.modules :: ModuleMayGo(a, b, k.run, rawCut))
    && (forall r | r in b.runs :: r in a.runs && b.runs[r] == a.runs[r])
    && (forall r | r in a.runs && r !in b.runs :: RunMayGo(a, b, r, rawCut))
    && (forall s | s in b.scopes :: s in a.scopes)
    && (forall s | s in a.scopes && s !in b.scopes :: ScopeMayGo(b, s))
  }

  ghost predicate ModuleMayGo(a: Db, b: Db, r: RunId, rawCut: int) {
    && r in a.runs && a.runs[r].started < rawCut
    && (forall k | k in b.samples :: k.run != r) && (forall p | p in b.payloads :: b.payloads[p].run != r)
  }

  ghost predicate RunMayGo(a: Db, b: Db, r: RunId, rawCut: int)
    requires r in a.runs
  {
    && a.runs[r].started < rawCut
    && (forall k | k in b.samples :: k.run != r) && (forall p | p in b.payloads :: b.payloads[p].run != r)
    && (forall k | k in b.modules :: k.run != r)
    && !(FinishedWait(a, r) && forall later | later in a.runs && FinishedWait(a, later) :: later <= r)
  }

  predicate FinishedWait(db: Db, r: RunId) {
    r in db.runs && db.runs[r].collector == WaitStats && db.runs[r].ended.Some?
  }

  ghost predicate ScopeMayGo(b: Db, s: Scope) {
    && s != ServerScope
    && (forall k | k in b.samples :: k.scope != s) && (forall c | c in b.scopes :: c.Parent() != Some(s))
  }

  /** Nothing is left that may go. */
  ghost predicate NothingExpiredLeft(b: Db, rawCut: int, payloadCut: int) {
    && (forall k | k in b.samples :: b.samples[k].collected >= rawCut)
    && (forall p | p in b.payloads :: b.payloads[p].captured >= payloadCut)
    && (forall k | k in b.modules :: !ModuleMayGo(b, b, k.run, rawCut))
    && (forall r | r in b.runs :: !RunMayGo(b, b, r, rawCut))
    && (forall s | s in b.scopes :: !ScopeMayGo(b, s))
  }

  lemma FenceIsNewest(a: Db, r: RunId)
    ensures Fence(a, r) ==
            (FinishedWait(a, r) && forall later | later in a.runs && FinishedWait(a, later) :: later <= r)
  {
    assert forall x :: FinalizedWait(a, x) == FinishedWait(a, x);
  }

  lemma RunGone(a: Db, b: Db, r: RunId, rawCut: int, payloadCut: int)
    requires PurgeEffect(a, b, rawCut, payloadCut) && r in a.runs && r !in b.runs
    ensures RunMayGo(a, b, r, rawCut)
  {
    FenceIsNewest(a, r);
  }

  lemma ModuleGone(a: Db, b: Db, k: ModuleKey, rawCut: int, payloadCut: int)
    requires PurgeEffect(a, b, rawCut, payloadCut) && k in a.modules && k !in b.modules
    ensures ModuleMayGo(a, b, k.run, rawCut)
  {
    assert !HasSamples(b, k.run) && !HasPayloads(b, k.run);
  }

  lemma ScopeGone(a: Db, b: Db, s: Scope, rawCut: int, payloadCut: int)
    requires PurgeEffect(a, b, rawCut, payloadCut) && s in a.scopes && s !in b.scopes
    ensures ScopeMayGo(b, s)
  {
  }

  /** Every purge removes rows only with reason. */
  lemma PurgedWithReason(a: Db, b: Db, rawCut: int, payloadCut: int)
    requires PurgeEffect(a, b, rawCut, payloadCut)
    ensures OnlyExpiredGone(a, b, rawCut, payloadCut)
  {
    forall k | k in a.modules && k !in b.modules ensures ModuleMayGo(a, b, k.run, rawCut) {
      ModuleGone(a, b, k, rawCut, payloadCut);
    }
    forall r | r in a.runs && r !in b.runs ensures RunMayGo(a, b, r, rawCut) {
      RunGone(a, b, r, rawCut, payloadCut);
    }
    forall s | s in a.scopes && s !in b.scopes ensures ScopeMayGo(b, s) {
      ScopeGone(a, b, s, rawCut, payloadCut);
    }
  }

  lemma NoMatch(b: Db, rawCut: int, payloadCut: int)
    requires Fixpoint(b, rawCut, payloadCut)
    ensures ExpiredSamples(b, rawCut) == {} && ExpiredPayloads(b, payloadCut) == {}
    ensures DeletableModules(b, rawCut) == {} && DeletableRuns(b, rawCut) == {} && DeletableScopes(b) == {}
  {
    assert Matches(b, 0, rawCut, payloadCut) == 0 && Matches(b, 1, rawCut, payloadCut) == 0;
    assert Matches(b, 2, rawCut, payloadCut) == 0 && Matches(b, 3, rawCut, payloadCut) == 0;
    assert Matches(b, 4, rawCut, payloadCut) == 0;
  }

  lemma RunStays(b: Db, r: RunId, rawCut: int)
    requires r in b.runs && RunMayGo(b, b, r, rawCut)
    ensures r in DeletableRuns(b, rawCut)
  {
    FenceIsNewest(b, r);
  }

  /** A purge that ends with nothing more to delete leaves nothing that may go. */
  lemma FixpointIsClean(b: Db, rawCut: int, payloadCut: int)
    requires Fixpoint(b, rawCut, payloadCut)
    ensures NothingExpiredLeft(b, rawCut, payloadCut)
  {
    NoMatch(b, rawCut, payloadCut);
    forall k | k in b.samples ensures b.samples[k].collected >= rawCut { assert k !in ExpiredSamples(b, rawCut); }
    forall p | p in b.payloads ensures b.payloads[p].captured >= payloadCut {
      assert p !in ExpiredPayloads(b, payloadCut);
    }
    forall k | k in b.modules ensures !ModuleMayGo(b, b, k.run, rawCut) {
      assert k !in DeletableModules(b, rawCut);
    }
    forall r | r in b.runs ensures !RunMayGo(b, b, r, rawCut) {
      if RunMayGo(b, b, r, rawCut) { RunStays(b, r, rawCut); }
    }
    forall s | s in b.scopes ensures !ScopeMayGo(b, s) { assert s !in DeletableScopes(b); }
  }
}
