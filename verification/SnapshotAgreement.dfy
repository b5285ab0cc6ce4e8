/** What a capture writes is what the next capture accepts. */
module SnapshotAgreement {
  import opened Common
  import opened SnapshotTables
  import opened SnapshotCapture

  // ---------- quantities ----------

  lemma {:induction false} MetricKeysSize(run: RunId, types: set<WaitType>, metrics: set<Metric>)
    ensures |MetricKeys(run, types, metrics)| == |types| * |metrics|
    decreases types
  {
    if t :| t in types {
      var fewer := types - {t};
      MetricKeysSize(run, fewer, metrics);
      OneTypeSize(run, t, metrics);
      SplitType(run, types, t, metrics);
      OneMore(|fewer|, |metrics|);
    } else {
      assert MetricKeys(run, types, metrics) == {};
    }
  }

  lemma OneMore(n: nat, m: nat)
    ensures (n + 1) * m == n * m + m
  {
  }

  lemma SplitType(run: RunId, types: set<WaitType>, t: WaitType, metrics: set<Metric>)
    requires t in types
    ensures |MetricKeys(run, types, metrics)|
         == |MetricKeys(run, types - {t}, metrics)| + |MetricKeys(run, {t}, metrics)|
  {
    var fewer, one := MetricKeys(run, types - {t}, metrics), MetricKeys(run, {t}, metrics);
    assert MetricKeys(run, types, metrics) == fewer + one;
    assert fewer !! one;
  }

  lemma {:induction false} OneTypeSize(run: RunId, t: WaitType, metrics: set<Metric>)
    ensures |MetricKeys(run, {t}, metrics)| == |metrics|
    decreases metrics
  {
    if m :| m in metrics {
      OneTypeSize(run, t, metrics - {m});
      var fewer, key := MetricKeys(run, {t}, metrics - {m}), SampleKey(run, WaitTypeScope(t), m);
      forall k ensures k in MetricKeys(run, {t}, metrics) <==> k in fewer + {key} {
        if k in MetricKeys(run, {t}, metrics) {
          assert k.metric == m || k.metric in metrics - {m};
        }
        assert t in {t};
      }
      assert MetricKeys(run, {t}, metrics) == fewer + {key};
    } else {
      assert MetricKeys(run, {t}, metrics) == {};
    }
  }

  lemma MetricCounts()
    ensures |RAW_METRICS| == 4 && |DELTA_METRICS| == 3
  {
    assert |{TaskCount, WaitTime, MaxTime}| == 3;
    assert RAW_METRICS == {TaskCount, WaitTime, MaxTime} + {SignalTime};
    assert DELTA_METRICS == {TaskDelta, TimeDelta} + {SignalDelta};
  }

  lemma Disjoint(c: Capture)
    ensures MetricKeys(c.run, c.rows.Keys, RAW_METRICS) !! MetricKeys(c.run, c.base.Keys, DELTA_METRICS)
    ensures MetricKeys(c.run, c.rows.Keys, RAW_METRICS) + MetricKeys(c.run, c.base.Keys, DELTA_METRICS)
         !! MetricKeys(c.run, c.rows.Keys, {DeltaStatus})
    ensures ContextKey(c.run) !in MetricKeys(c.run, c.rows.Keys, RAW_METRICS)
      + MetricKeys(c.run, c.base.Keys, DELTA_METRICS) + MetricKeys(c.run, c.rows.Keys, {DeltaStatus})
  {
  }

  lemma PartsSize(a: set<SampleKey>, b: set<SampleKey>, c: set<SampleKey>, x: SampleKey)
    requires a !! b && a + b !! c && x !in a + b + c
    ensures |a + b + c + {x}| == |a| + |b| + |c| + 1
  {
    assert |a + b| == |a| + |b|;
    assert |a + b + c| == |a + b| + |c|;
  }

  lemma RawQuantity(run: RunId, types: set<WaitType>)
    ensures |MetricKeys(run, types, RAW_METRICS)| == 4 * |types|
  {
    MetricKeysSize(run, types, RAW_METRICS);
    MetricCounts();
  }

  lemma DeltaQuantity(run: RunId, types: set<WaitType>)
    ensures |MetricKeys(run, types, DELTA_METRICS)| == 3 * |types|
  {
    MetricKeysSize(run, types, DELTA_METRICS);
    MetricCounts();
  }

  lemma StatusQuantity(run: RunId, types: set<WaitType>)
    ensures |MetricKeys(run, types, {DeltaStatus})| == |types|
  {
    MetricKeysSize(run, types, {DeltaStatus});
  }

  lemma KeysQuantity(c: Capture)
    ensures |KeysOf(c)| == |MetricKeys(c.run, c.rows.Keys, RAW_METRICS)|
                         + |MetricKeys(c.run, c.base.Keys, DELTA_METRICS)|
                         + |MetricKeys(c.run, c.rows.Keys, {DeltaStatus})| + 1
  {
    Disjoint(c);
    PartsSize(MetricKeys(c.run, c.rows.Keys, RAW_METRICS), MetricKeys(c.run, c.base.Keys, DELTA_METRICS),
              MetricKeys(c.run, c.rows.Keys, {DeltaStatus}), ContextKey(c.run));
  }

  /** A capture of W types, C of them comparable, stores 5W + 3C + 1 samples. */
  lemma SampleQuantity(c: Capture)
    requires c.base.Keys <= c.rows.Keys
    ensures |SamplesOf(c)| == 5 * |c.rows| + 3 * |c.base| + 1
  {
    KeysQuantity(c);
    RawQuantity(c.run, c.rows.Keys);
    DeltaQuantity(c.run, c.base.Keys);
    StatusQuantity(c.run, c.rows.Keys);
    var m := SamplesOf(c);
    assert m.Keys == KeysOf(c);
  }

  // ---------- reading back an untouched capture ----------

  /** What the completion procedure guarantees of every capture it stores. */
  ghost predicate CaptureOk(c: Capture) {
    && c.base.Keys <= c.rows.Keys
    && c.run > 0 && c.epoch != 0 && 1 <= |c.engine.serverName| <= 128
    && c.started <= c.start <= c.end <= c.finished
    && (c.previous.Some? ==> 0 < c.previous.value < c.run)
    && (c.previous.None? ==> c.previousVersion.None?)
    && (c.previousVersion.Some? ==> c.previousVersion.value > 0)
    && (c.previous.None? <==> c.decision == NewFirst)
    && |c.rows| <= 100000 && |c.rows| <= c.eligible <= c.native && c.active <= c.eligible
    && (c.eligible > 0 ==> |c.rows| > 0)
    && |ActiveOf(c.rows)| <= c.active
    && (|c.rows| == c.eligible ==> |ActiveOf(c.rows)| == c.active)
    && ContextDecisionOk(ContextOf(c))
    && forall t | t in c.base :: c.rows[t].AtLeast(c.base[t])
  }

  /** `samples` holds exactly what the capture stored. */
  ghost predicate StoredAs(samples: map<SampleKey, Sample>, c: Capture) {
    && c.base.Keys <= c.rows.Keys
    && (forall k :: k in samples <==> Stores(c, k))
    && (forall k | k in samples :: samples[k] == SampleAt(c, k))
  }

  lemma StoredTypes(samples: map<SampleKey, Sample>, c: Capture)
    requires StoredAs(samples, c)
    ensures TypesOf(samples) == c.rows.Keys
  {
    forall t | t in c.rows ensures t in TypesOf(samples) {
      var k := TypeKey(c.run, t, TaskCount);
      assert k in samples && k.scope.waitType == t;
    }
  }

  lemma StoredRaw(samples: map<SampleKey, Sample>, c: Capture, t: WaitType, m: Metric)
    requires StoredAs(samples, c) && t in c.rows && m.IsRaw()
    ensures RawPresent(samples, c.run, t, m) && RawValue(samples, c.run, t, m) == c.rows[t].Raw(m)
  {
    assert Stores(c, TypeKey(c.run, t, m));
  }

  lemma StoredCandidates(samples: map<SampleKey, Sample>, c: Capture, t: WaitType)
    requires StoredAs(samples, c)
    ensures CandidateCount(samples, c.run, t) == if t in c.base then 3 else 0
  {
  }

  lemma StoredStatus(samples: map<SampleKey, Sample>, c: Capture, t: WaitType)
    requires StoredAs(samples, c) && t in c.rows
    ensures TypeKey(c.run, t, DeltaStatus) in samples
    ensures samples[TypeKey(c.run, t, DeltaStatus)].value == Str(StatusText(RowStatus(c, t)))
  {
    assert Stores(c, TypeKey(c.run, t, DeltaStatus));
  }

  lemma StoredRow(samples: map<SampleKey, Sample>, c: Capture, t: WaitType)
    requires StoredAs(samples, c) && t in c.rows && (c.base != map[] <==> c.status == MonotonicContinuityUnproven)
    ensures RowOk(samples, c.run, t, c.status)
    ensures ReadRow(samples, c.run, t) == c.rows[t]
  {
    StoredRaw(samples, c, t, TaskCount);
    StoredRaw(samples, c, t, WaitTime);
    StoredRaw(samples, c, t, MaxTime);
    StoredRaw(samples, c, t, SignalTime);
    StoredStatus(samples, c, t);
    StoredCandidates(samples, c, t);
  }

  lemma StoredShapes(samples: map<SampleKey, Sample>, c: Capture)
    requires StoredAs(samples, c) && CaptureOk(c)
    ensures forall k | k in samples :: SampleShapeOk(k, samples[k], ContextOf(c))
  {
    forall k | k in samples ensures SampleShapeOk(k, samples[k], ContextOf(c)) {
      assert samples[k] == SampleAt(c, k);
    }
  }

  /** The run row and the samples of a capture are still exactly as written. */
  ghost predicate Untouched(db: Db, c: Capture) {
    && c.run in db.runs
    && StoredAs(SamplesOfRun(db, c.run), c)
    && (exists payloads: nat :: db.runs[c.run] == RunOf(c, payloads))
    && ServerScope in db.scopes
  }

  lemma ContextSample(db: Db, c: Capture)
    requires Untouched(db, c)
    ensures ContextKey(c.run) in db.samples && db.samples[ContextKey(c.run)] == SampleAt(c, ContextKey(c.run))
  {
    var key := ContextKey(c.run);
    assert key in SamplesOfRun(db, c.run) && db.samples[key] == SamplesOfRun(db, c.run)[key];
  }

  lemma ContextKeyAlone(db: Db, c: Capture)
    requires StoredAs(SamplesOfRun(db, c.run), c)
    ensures (set k | k in db.samples && k.run == c.run && k.metric == CaptureContext) <= {ContextKey(c.run)}
  {
    forall k | k in db.samples && k.run == c.run && k.metric == CaptureContext ensures k == ContextKey(c.run) {
      assert k in SamplesOfRun(db, c.run) && Stores(c, k);
    }
  }

  lemma ContextStored(db: Db, c: Capture)
    requires Untouched(db, c)
    ensures ContextKey(c.run) in db.samples && db.samples[ContextKey(c.run)] == SampleAt(c, ContextKey(c.run))
    ensures StoredText(db, c.run) == Some(ContextText(ContextOf(c)))
  {
    ContextSample(db, c);
    ContextKeyAlone(db, c);
    assert (set k | k in db.samples && k.run == c.run && k.metric == CaptureContext) == {ContextKey(c.run)};
  }

  lemma StoredSize(samples: map<SampleKey, Sample>, c: Capture)
    requires StoredAs(samples, c)
    ensures samples == SamplesOf(c) && |samples| == 5 * |c.rows| + 3 * |c.base| + 1
  {
    assert samples == SamplesOf(c);
    SampleQuantity(c);
  }

  lemma StoredRows(samples: map<SampleKey, Sample>, c: Capture)
    requires StoredAs(samples, c) && (c.base != map[] <==> c.status == MonotonicContinuityUnproven)
    ensures ReadRows(samples, c.run) == c.rows
    ensures forall t | t in TypesOf(samples) :: RowOk(samples, c.run, t, c.status)
  {
    StoredTypes(samples, c);
    StoredValues(samples, c);
    forall t | t in c.rows ensures RowOk(samples, c.run, t, c.status) {
      StoredRow(samples, c, t);
    }
  }

  lemma StoredValues(samples: map<SampleKey, Sample>, c: Capture)
    requires StoredAs(samples, c) && (c.base != map[] <==> c.status == MonotonicContinuityUnproven)
    requires TypesOf(samples) == c.rows.Keys
    ensures ReadRows(samples, c.run) == c.rows
  {
    forall t | t in c.rows ensures ReadRow(samples, c.run, t) == c.rows[t] {
      StoredRow(samples, c, t);
    }
  }

  lemma StoredComparables(samples: map<SampleKey, Sample>, c: Capture)
    requires StoredAs(samples, c)
    ensures (set t | t in TypesOf(samples) && CandidateCount(samples, c.run, t) == 3) == c.base.Keys
  {
    StoredTypes(samples, c);
    forall t ensures CandidateCount(samples, c.run, t) == 3 <==> t in c.base { StoredCandidates(samples, c, t); }
  }

  lemma RawAccepted(db: Db, c: Capture)
    requires CaptureOk(c) && Untouched(db, c)
    ensures RawValid(db, c.run, ContextOf(c))
    ensures ReadRows(SamplesOfRun(db, c.run), c.run) == c.rows
  {
    var samples := SamplesOfRun(db, c.run);
    StoredSize(samples, c);
    StoredTypes(samples, c);
    StoredRows(samples, c);
    StoredComparables(samples, c);
    StoredShapes(samples, c);
  }

  lemma ContextAccepted(db: Db, c: Capture)
    requires CaptureOk(c) && Untouched(db, c)
    ensures ContextIdentityOk(db, c.run, ContextOf(c))
    ensures ContextCountsOk(ContextOf(c), db.runs[c.run].sampleCount)
  {
    ContextStored(db, c);
    var row := db.runs[c.run];
    assert row.sampleCount == |SamplesOf(c)|;
    SampleQuantity(c);
  }

  lemma BoundsAccepted(c: Capture)
    requires CaptureOk(c)
    ensures ContextShapeOk(ContextOf(c)) && ContextBoundsOk(ContextOf(c))
  {
    SubsetSize(c.base.Keys, c.rows.Keys);
  }

  /** Writer and validator agree: an untouched capture passes every context,
    * quantity, status and raw check of the next capture. */
  lemma WriterMeetsValidator(db: Db, c: Capture)
    requires CaptureOk(c) && Untouched(db, c)
    ensures StoredText(db, c.run) == Some(ContextText(ContextOf(c)))
    ensures ContextValid(db, c.run, ContextOf(c))
    ensures RawValid(db, c.run, ContextOf(c))
    ensures ReadRows(SamplesOfRun(db, c.run), c.run) == c.rows
  {
    ContextStored(db, c);
    ContextAccepted(db, c);
    BoundsAccepted(c);
    RawAccepted(db, c);
  }
}
