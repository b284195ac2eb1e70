/** Every action of the two-shard histogram keeps the invariant. */
module HistogramSteps {
  import opened Floats
  import opened Integers
  import opened PackedWord
  import opened PlainHistogram
  import opened Tallies
  import opened HistogramProtocol
  import opened HistogramInvariant

  /** Every action of every thread keeps the invariant. */
  lemma StepKeepsInv(s: State, a: Action)
    requires Inv(s) && Enabled(s, a)
    ensures Inv(Next(s, a))
  {
    StepKeepsWellformed(s, a);
    StepKeepsFew(s, a);
    if FewObservations(Next(s, a)) {
      StepKeepsHistory(s, a);
      StepKeepsParts(s, a);
      StepKeepsReader(s, a);
    }
  }

  lemma StepKeepsParts(s: State, a: Action)
    requires Inv(s) && Enabled(s, a) && Wellformed(Next(s, a)) && FewObservations(s) && FewObservations(Next(s, a))
    ensures Parts(Next(s, a))
  {
    match a
    case Begin(job, values) => BeginKeepsParts(s, job, values);
    case Write(id, spurious) => WriteKeepsParts(s, id, spurious);
    case Flip => FlipKeepsParts(s);
    case CollectStep(spurious) => CollectKeepsParts(s, spurious);
    case _ =>
  }

  /** `sample_sum` holds the lock, so that the shard it found to be hot stays hot. */
  lemma StepKeepsReader(s: State, a: Action)
    requires Wellformed(s) && Enabled(s, a) && Wellformed(Next(s, a)) && FewObservations(Next(s, a))
    requires s.Started() == IssuedTotal(s.bounds, s.log).count
    requires (s.lock.ReadAt? ==> s.lock.shard == s.Hot()) && (s.lock.Entered? ==> s.lock.began <= |s.log|)
    ensures Next(s, a).lock.ReadAt? ==> Next(s, a).lock.shard == Next(s, a).Hot()
    ensures Next(s, a).lock.Entered? ==> Next(s, a).lock.began <= |Next(s, a).log|
  {
    if a.Begin? {
      TotalsAppend(s.bounds, s.log, Writer(s.Hot(), a.job, a.values, FirstPc(s.bounds, a.job)));
      BeginKeepsHot(s.word, JobCount(a.job));
    }
  }

  lemma StepKeepsWellformed(s: State, a: Action)
    requires Inv(s) && Enabled(s, a)
    ensures Wellformed(Next(s, a))
  {
    if a.Write? {
      WriteKeepsShapes(s, a.id, a.spurious);
    } else if a.CollectStep? {
      CollectKeepsShapes(s, a.spurious);
    }
  }

  lemma CollectKeepsShapes(s: State, spurious: bool)
    requires Wellformed(s) && Enabled(s, CollectStep(spurious))
    ensures Wellformed(StepCollect(s, spurious))
  {
    if !s.lock.phase.Release? {
      CollectorKeeps64(s.bounds, s.lock.c, s.lock.phase, s.Shard(s.lock.c.cold), s.Shard(s.lock.c.cold.Inverse()), spurious);
    }
    assert StepCollect(s, spurious).log == s.log;
  }

  lemma CollectorKeeps64(bounds: seq<F64>, c: Collect, phase: Phase, cold: Tally, hot: Tally, spurious: bool)
    requires Shard64(|bounds|, cold) && Shard64(|bounds|, hot)
    requires CollectFits(bounds, c, phase) && !phase.Release?
    ensures var (c', phase', cold', hot') := CollectorEffect(bounds, c, phase, cold, hot, spurious);
      Shard64(|bounds|, cold') && Shard64(|bounds|, hot') && CollectFits(bounds, c', phase')
  {
  }

  /** The log only grows, so that the number of observations begun does. */
  lemma StepKeepsFew(s: State, a: Action)
    requires Inv(s) && Enabled(s, a) && Wellformed(Next(s, a))
    ensures FewObservations(Next(s, a)) ==> FewObservations(s)
  {
    match a
    case Begin(job, values) =>
      TotalsAppend(s.bounds, s.log, Writer(s.Hot(), job, values, FirstPc(s.bounds, job)));
    case Write(id, spurious) =>
      var w := s.log[id];
      var pc := WriterEffect(s.bounds, w, s.Shard(w.shard), spurious).1;
      DeltaAdvances(s.bounds, w, s.Shard(w.shard), spurious);
      TotalsUpdate(s.bounds, s.log, id, w.(pc := pc), Delta(s.bounds, w, pc));
    case _ =>
  }

  lemma StepKeepsHistory(s: State, a: Action)
    requires Wellformed(s) && Increasing(s.bounds) && Consistent(s) && Enabled(s, a) && Wellformed(Next(s, a))
    ensures History(Next(s, a))
  {
    match a
    case Begin(_, _) => HistoryGrows(s, Next(s, a));
    case Write(id, spurious) => HistoryGrows(s, StepWriter(s, id, spurious));
    case CollectStep(spurious) => CollectKeepsHistory(s, spurious);
    case _ => LockKeepsHistory(s, a);
  }

  /** Taking the lock, flipping and reading the sum record that every finished collect has ended. */
  lemma LockKeepsHistory(s: State, a: Action)
    requires Shapes(s) && History(s) && Enabled(s, a) && !a.Begin? && !a.Write? && !a.CollectStep?
    ensures History(Next(s, a))
  {
    assert Next(s, a).log == s.log && Next(s, a).collected == s.collected;
  }

  lemma CollectKeepsHistory(s: State, spurious: bool)
    requires Wellformed(s) && Increasing(s.bounds) && Consistent(s)
    requires s.lock.Collecting? && Wellformed(StepCollect(s, spurious))
    ensures History(StepCollect(s, spurious))
  {
    if s.lock.phase.Release? {
      ReleaseReportsPlain(s);
      ReleaseKeepsHistory(s);
    } else {
      CollectMovesNoHistory(s, spurious);
    }
  }

  lemma CollectMovesNoHistory(s: State, spurious: bool)
    requires Shapes(s) && History(s) && s.lock.Collecting? && !s.lock.phase.Release?
    ensures History(StepCollect(s, spurious))
  {
    var s' := StepCollect(s, spurious);
    assert s'.log == s.log && s'.collected == s.collected && s'.bounds == s.bounds;
    assert s'.lock.c.began == s.lock.c.began;
  }

  lemma ReleaseKeepsHistory(s: State)
    requires Shapes(s) && History(s) && s.lock.Collecting? && s.lock.phase.Release?
    requires s.lock.c.began <= s.lock.c.at <= |s.log|
    requires Snapshot(s.lock.c.overall, s.lock.c.sum, s.lock.c.rows) == Plain(s.bounds, Observations(s.log[..s.lock.c.at]))
    ensures History(StepCollect(s, false))
  {
  }

  /** The part of the invariant that speaks of shards and writers. */
  ghost predicate Parts(s: State)
    requires Wellformed(s)
  {
    && s.Started() == IssuedTotal(s.bounds, s.log).count
    && (if s.lock.Collecting? then Draining(s, s.lock.c, s.lock.phase) else Quiet(s))
  }

  // ---- Beginning a write ----------------------------------------------------------------------------------

  lemma BeginKeepsParts(s: State, job: Job, values: seq<real>)
    requires Wellformed(s) && Parts(s) && Enabled(s, Begin(job, values))
    requires Wellformed(BeginWrite(s, job, values)) && FewObservations(BeginWrite(s, job, values))
    ensures Parts(BeginWrite(s, job, values))
  {
    var s' := BeginWrite(s, job, values);
    var w := Writer(s.Hot(), job, values, FirstPc(s.bounds, job));
    assert s'.log == s.log + [w];
    TotalsAppend(s.bounds, s.log, w);
    BeginKeepsHot(s.word, JobCount(job));
    assert Applied(s.bounds, w) == Zero(|s.bounds|) by {
      assert Applied(s.bounds, w).buckets == Zero(|s.bounds|).buckets;
    }
    if s.lock.Collecting? {
      BeginAfterFlip(s, job, values);
    } else {
      PlusZero(AppliedTotal(s.bounds, s.log));
    }
  }

  lemma BeginAfterFlip(s: State, job: Job, values: seq<real>)
    requires Wellformed(s) && Parts(s) && Enabled(s, Begin(job, values)) && s.lock.Collecting?
    requires Wellformed(BeginWrite(s, job, values)) && BeginWrite(s, job, values).Hot() == s.Hot()
    ensures Draining(BeginWrite(s, job, values), s.lock.c, s.lock.phase)
  {
    var at := s.lock.c.at;
    var w := Writer(s.Hot(), job, values, FirstPc(s.bounds, job));
    assert BeginWrite(s, job, values).log[at..] == s.log[at..] + [w];
    NothingApplied(s.bounds, s.log[at..], w);
    BeginDrains(s, job, values);
  }

  /** A writer that has just begun has applied nothing. */
  lemma NothingApplied(bounds: seq<F64>, log: seq<Writer>, w: Writer)
    requires LogFits(bounds, log) && Fitting(bounds, w) && w.pc == FirstPc(bounds, w.job)
    ensures LogFits(bounds, log + [w])
    ensures AppliedTotal(bounds, log + [w]) == AppliedTotal(bounds, log)
  {
    assert Applied(bounds, w) == Zero(|bounds|) by {
      assert Applied(bounds, w).buckets == Zero(|bounds|).buckets;
    }
    TotalsAppend(bounds, log, w);
    PlusZero(AppliedTotal(bounds, log));
  }

  lemma BeginDrains(s: State, job: Job, values: seq<real>)
    requires Wellformed(s) && s.lock.Collecting? && Draining(s, s.lock.c, s.lock.phase) && JobCount(job) < TWO64
    requires Wellformed(BeginWrite(s, job, values)) && BeginWrite(s, job, values).Hot() == s.Hot()
    requires AppliedTotal(s.bounds, BeginWrite(s, job, values).log[s.lock.c.at..])
          == AppliedTotal(s.bounds, s.log[s.lock.c.at..])
    ensures Draining(BeginWrite(s, job, values), s.lock.c, s.lock.phase)
  {
    var s', at := BeginWrite(s, job, values), s.lock.c.at;
    assert s'.log[..at] == s.log[..at];
    assert WritersSplit(s', s.lock.c, s.lock.phase);
  }

  lemma BeginKeepsHot(word: u64, n: u64)
    requires Split(word).1 + n < TWO63
    ensures Split(Apply(word, IncBy(n))) == (Split(word).0, Split(word).1 + n)
  {
    assert word == Pack(Split(word).0, Split(word).1);
    IncPacked(Split(word).0, Split(word).1, n);
  }

  /** Appending writers, or moving their program counters, leaves the finished collects truthful. */
  lemma HistoryGrows(s: State, s': State)
    requires Wellformed(s) && Wellformed(s') && History(s)
    requires s'.bounds == s.bounds && s'.collected == s.collected && s'.lock == s.lock
    requires |s.log| <= |s'.log|
    requires forall i :: 0 <= i < |s.log| ==> s'.log[i].values == s.log[i].values
    ensures History(s')
  {
    forall i | 0 <= i < |s.collected| ensures Truthful(s'.bounds, s'.log, s'.collected[i]) {
      var c := s.collected[i];
      ObservationsSame(s.log[..c.at], s'.log[..c.at]);
    }
  }

  // ---- A step of a writer ---------------------------------------------------------------------------------

  /** What one step of a writer adds, given the program counter it reaches. */
  function Delta(bounds: seq<F64>, w: Writer, pc: Pc): (t: Tally)
    requires Fitting(bounds, w)
    ensures |t.buckets| == |bounds|
  {
    var full := JobTally(bounds, w.job);
    var none := Zero(|bounds|);
    match w.pc
    case AtBucket(k) => Tally(0, 0.0, if w.job.Observe? then full.buckets else Only(full.buckets, k))
    case AtSumLoad => none
    case AtSumCas(_) => if pc.AtCount? then Tally(0, full.sum, none.buckets) else none
    case AtCount => Tally(full.count, 0.0, none.buckets)
    case Done => none
  }

  lemma DeltaOfObserve(bounds: seq<F64>, v: real, i: nat)
    requires i < |bounds|
    ensures CountIn(bounds, [v], i) == (if FindBucket(bounds, v) == i then 1 else 0)
    ensures Sum([v]) == v
  {
    assert [v][..|[v]| - 1] == [];
  }

  /** The effect of a step on its shard is exactly the delta, as long as no counter overflows. */
  lemma EffectIsDelta(bounds: seq<F64>, w: Writer, t: Tally, spurious: bool)
    requires Shard64(|bounds|, t) && Fitting(bounds, w) && !w.pc.Done?
    requires Bounded(Plus(t, Delta(bounds, w, WriterEffect(bounds, w, t, spurious).1)), TWO63 - 1)
    ensures WriterEffect(bounds, w, t, spurious).0 == Plus(t, Delta(bounds, w, WriterEffect(bounds, w, t, spurious).1))
  {
    var (t', pc) := WriterEffect(bounds, w, t, spurious);
    var d := Delta(bounds, w, pc);
    var sum := Plus(t, d);
    if w.pc.AtBucket? && w.job.Observe? {
      forall i | 0 <= i < |bounds| ensures t'.buckets[i] == sum.buckets[i] {
        DeltaOfObserve(bounds, w.job.v, i);
        assert sum.buckets[i] <= TWO63 - 1;
      }
    } else if w.pc.AtBucket? {
      assert sum.buckets[w.pc.next] <= TWO63 - 1;
    } else if w.pc.AtSumCas? && w.job.Observe? {
      assert Sum([w.job.v]) == w.job.v by { assert [w.job.v][..0] == []; }
    }
    assert t'.buckets == sum.buckets;
  }

  lemma DeltaAdvances(bounds: seq<F64>, w: Writer, t: Tally, spurious: bool)
    requires Shard64(|bounds|, t) && Fitting(bounds, w) && !w.pc.Done?
    ensures var pc := WriterEffect(bounds, w, t, spurious).1;
      && Fitting(bounds, w.(pc := pc))
      && Applied(bounds, w.(pc := pc)) == Plus(Applied(bounds, w), Delta(bounds, w, pc))
  {
    var pc := WriterEffect(bounds, w, t, spurious).1;
    assert Applied(bounds, w.(pc := pc)).buckets == Plus(Applied(bounds, w), Delta(bounds, w, pc)).buckets;
  }

  lemma BoundedPlus(a: Tally, b: Tally, m: nat, n: nat)
    requires |a.buckets| == |b.buckets| && Bounded(a, m) && Bounded(b, n)
    ensures Bounded(Plus(a, b), m + n)
  {
  }

  lemma MergedBounded(phase: Phase, all: Tally, m: nat)
    requires Bounded(all, m)
    ensures Bounded(MergedPart(phase, all), m)
  {
  }

  lemma SubLogFits(s: State, lo: nat, hi: nat)
    requires Wellformed(s) && lo <= hi <= |s.log|
    ensures LogFits(s.bounds, s.log[lo..hi]) && LogJobsFit(s.bounds, s.log[lo..hi])
  {
  }

  lemma WriteKeepsShapes(s: State, id: nat, spurious: bool)
    requires Wellformed(s) && Enabled(s, Write(id, spurious))
    ensures Wellformed(StepWriter(s, id, spurious))
  {
    var w, t, s' := s.log[id], s.Shard(s.log[id].shard), StepWriter(s, id, spurious);
    DeltaAdvances(s.bounds, w, t, spurious);
    EffectKeeps64(s.bounds, w, t, spurious);
    assert LogFits(s.bounds, s'.log) && LogJobsFit(s.bounds, s'.log);
  }

  lemma EffectKeeps64(bounds: seq<F64>, w: Writer, t: Tally, spurious: bool)
    requires Shard64(|bounds|, t) && Fitting(bounds, w) && !w.pc.Done?
    ensures Shard64(|bounds|, WriterEffect(bounds, w, t, spurious).0)
  {
  }

  lemma WriteKeepsParts(s: State, id: nat, spurious: bool)
    requires Wellformed(s) && Parts(s) && Enabled(s, Write(id, spurious)) && FewObservations(s)
    requires Wellformed(StepWriter(s, id, spurious))
    ensures Parts(StepWriter(s, id, spurious))
  {
    var s' := StepWriter(s, id, spurious);
    var w := s.log[id];
    var pc := WriterEffect(s.bounds, w, s.Shard(w.shard), spurious).1;
    DeltaAdvances(s.bounds, w, s.Shard(w.shard), spurious);
    TotalsUpdate(s.bounds, s.log, id, w.(pc := pc), Delta(s.bounds, w, pc));
    assert s'.log == s.log[id := w.(pc := pc)];
    if !s.lock.Collecting? {
      AppliedTotalBounded(s.bounds, s'.log);
      EffectIsDelta(s.bounds, w, s.Shard(w.shard), spurious);
    } else if id < s.lock.c.at {
      WriteBehindFlip(s, id, spurious);
    } else {
      WriteAfterFlip(s, id, spurious);
    }
  }

  lemma IssuedPrefixFew(s: State, k: nat)
    requires Wellformed(s) && k <= |s.log|
    ensures IssuedTotal(s.bounds, s.log).count
         == IssuedTotal(s.bounds, s.log[..k]).count + IssuedTotal(s.bounds, s.log[k..]).count
  {
    TotalsSplit(s.bounds, s.log, k);
  }

  /** A writer that began before the flip works on the cold shard, which only such writers touch. */
  lemma WriteBehindFlip(s: State, id: nat, spurious: bool)
    requires Wellformed(s) && Parts(s) && Enabled(s, Write(id, spurious)) && FewObservations(s)
    requires Wellformed(StepWriter(s, id, spurious))
    requires s.lock.Collecting? && id < s.lock.c.at
    ensures Draining(StepWriter(s, id, spurious), s.lock.c, s.lock.phase)
  {
    var s' := StepWriter(s, id, spurious);
    var at, w := s.lock.c.at, s.log[id];
    assert w.shard == s.lock.c.cold && s.lock.phase.Spin?;
    WriteGrowsCold(s, id, spurious);
    assert s'.log[at..] == s.log[at..];
    StillSplit(s, s', id);
  }

  lemma WriteGrowsCold(s: State, id: nat, spurious: bool)
    requires Wellformed(s) && Enabled(s, Write(id, spurious)) && FewObservations(s)
    requires Wellformed(StepWriter(s, id, spurious))
    requires s.lock.Collecting? && id < s.lock.c.at <= |s.log| && s.log[id].shard == s.lock.c.cold
    requires s.Shard(s.lock.c.cold) == AppliedTotal(s.bounds, s.log[..s.lock.c.at])
    ensures var s', at := StepWriter(s, id, spurious), s.lock.c.at;
            && s'.Shard(s.lock.c.cold) == AppliedTotal(s.bounds, s'.log[..at])
            && IssuedTotal(s.bounds, s'.log[..at]) == IssuedTotal(s.bounds, s.log[..at])
  {
    var s' := StepWriter(s, id, spurious);
    var at, w := s.lock.c.at, s.log[id];
    var pc := WriterEffect(s.bounds, w, s.Shard(w.shard), spurious).1;
    var w', d := w.(pc := pc), Delta(s.bounds, w, pc);
    DeltaAdvances(s.bounds, w, s.Shard(w.shard), spurious);
    assert s'.log[..at] == s.log[..at][id := w'];
    TotalsUpdate(s.bounds, s.log[..at], id, w', d);
    SubLogFits(s', 0, at);
    AppliedTotalBounded(s.bounds, s'.log[..at]);
    IssuedPrefixFew(s, at);
    EffectIsDelta(s.bounds, w, s.Shard(w.shard), spurious);
  }

  lemma TotalsUpdateFew(s: State, id: nat, spurious: bool)
    requires Wellformed(s) && Enabled(s, Write(id, spurious)) && FewObservations(s)
    requires Wellformed(StepWriter(s, id, spurious))
    ensures FewObservations(StepWriter(s, id, spurious))
  {
    var w := s.log[id];
    var pc := WriterEffect(s.bounds, w, s.Shard(w.shard), spurious).1;
    DeltaAdvances(s.bounds, w, s.Shard(w.shard), spurious);
    TotalsUpdate(s.bounds, s.log, id, w.(pc := pc), Delta(s.bounds, w, pc));
  }

  /** A writer that began after the flip works on the hot shard. */
  lemma WriteAfterFlip(s: State, id: nat, spurious: bool)
    requires Wellformed(s) && Parts(s) && Enabled(s, Write(id, spurious)) && FewObservations(s)
    requires Wellformed(StepWriter(s, id, spurious))
    requires s.lock.Collecting? && s.lock.c.at <= id
    ensures Draining(StepWriter(s, id, spurious), s.lock.c, s.lock.phase)
  {
    WriteGrowsHot(s, id, spurious);
    WriteLeavesCold(s, id, spurious);
  }

  lemma WriteLeavesCold(s: State, id: nat, spurious: bool)
    requires Wellformed(s) && s.lock.Collecting? && Draining(s, s.lock.c, s.lock.phase) && s.lock.c.at <= id
    requires Enabled(s, Write(id, spurious)) && Wellformed(StepWriter(s, id, spurious))
    requires StepWriter(s, id, spurious).Shard(s.Hot())
          == Plus(AppliedTotal(s.bounds, StepWriter(s, id, spurious).log[s.lock.c.at..]),
                  MergedPart(s.lock.phase, IssuedTotal(s.bounds, s.log[..s.lock.c.at])))
    ensures Draining(StepWriter(s, id, spurious), s.lock.c, s.lock.phase)
  {
    var s', at := StepWriter(s, id, spurious), s.lock.c.at;
    assert s.log[id].shard == s.Hot();
    assert s'.log[..at] == s.log[..at];
    StillSplit(s, s', id);
  }

  /** A step that leaves the shard of its writer, and one that began after the flip or works on the cold shard. */
  lemma StillSplit(s: State, s': State, id: nat)
    requires s.lock.Collecting? && s.lock.c.at <= |s.log| && WritersSplit(s, s.lock.c, s.lock.phase)
    requires id < |s.log| && !s.log[id].pc.Done? && s'.word == s.word
    requires |s'.log| == |s.log| && s'.log == s.log[id := s'.log[id]] && s'.log[id].shard == s.log[id].shard
    ensures WritersSplit(s', s.lock.c, s.lock.phase)
  {
  }

  lemma WriteGrowsHot(s: State, id: nat, spurious: bool)
    requires Wellformed(s) && Enabled(s, Write(id, spurious)) && FewObservations(s)
    requires Wellformed(StepWriter(s, id, spurious))
    requires s.lock.Collecting? && s.lock.c.at <= id && s.log[id].shard == s.Hot()
    requires s.Shard(s.Hot()) == Plus(AppliedTotal(s.bounds, s.log[s.lock.c.at..]),
                                      MergedPart(s.lock.phase, IssuedTotal(s.bounds, s.log[..s.lock.c.at])))
    ensures StepWriter(s, id, spurious).Shard(s.Hot())
         == Plus(AppliedTotal(s.bounds, StepWriter(s, id, spurious).log[s.lock.c.at..]),
                 MergedPart(s.lock.phase, IssuedTotal(s.bounds, s.log[..s.lock.c.at])))
  {
    var s', at, w := StepWriter(s, id, spurious), s.lock.c.at, s.log[id];
    var d := Delta(s.bounds, w, s'.log[id].pc);
    var rest := AppliedTotal(s.bounds, s.log[at..]);
    var merged := MergedPart(s.lock.phase, IssuedTotal(s.bounds, s.log[..at]));
    RestGrows(s, id, spurious, at);
    PlusShift(rest, merged, d);
    TotalsUpdateFew(s, id, spurious);
    assert s'.log[..at] == s.log[..at];
    HotBounded(s', at, s.lock.phase);
    EffectIsDelta(s.bounds, w, s.Shard(w.shard), spurious);
  }

  /** What the younger writers have applied grows by what the step adds. */
  lemma RestGrows(s: State, id: nat, spurious: bool, at: nat)
    requires Wellformed(s) && Enabled(s, Write(id, spurious)) && at <= id
    requires Wellformed(StepWriter(s, id, spurious))
    ensures var s' := StepWriter(s, id, spurious);
            AppliedTotal(s.bounds, s'.log[at..])
            == Plus(AppliedTotal(s.bounds, s.log[at..]), Delta(s.bounds, s.log[id], s'.log[id].pc))
  {
    var s', w := StepWriter(s, id, spurious), s.log[id];
    DeltaAdvances(s.bounds, w, s.Shard(w.shard), spurious);
    assert s'.log[at..] == s.log[at..][id - at := s'.log[id]];
    TotalsUpdate(s.bounds, s.log[at..], id - at, s'.log[id], Delta(s.bounds, w, s'.log[id].pc));
  }

  /** The hot shard of a histogram being collected never holds more than the number of observations begun. */
  lemma HotBounded(s: State, at: nat, phase: Phase)
    requires Wellformed(s) && FewObservations(s) && at <= |s.log|
    ensures Bounded(Plus(AppliedTotal(s.bounds, s.log[at..]), MergedPart(phase, IssuedTotal(s.bounds, s.log[..at]))),
                    TWO63 - 1)
  {
    var all := IssuedTotal(s.bounds, s.log[..at]);
    IssuedPrefixFew(s, at);
    SubLogFits(s, 0, at);
    SubLogFits(s, at, |s.log|);
    AppliedTotalBounded(s.bounds, s.log[at..]);
    ContributionBounded(s.bounds, s.log[..at]);
    MergedBounded(phase, all, all.count);
    BoundedPlus(AppliedTotal(s.bounds, s.log[at..]), MergedPart(phase, all),
                IssuedTotal(s.bounds, s.log[at..]).count, all.count);
  }

  lemma ContributionBounded(bounds: seq<F64>, log: seq<Writer>)
    requires LogFits(bounds, log) && LogJobsFit(bounds, log)
    ensures Bounded(IssuedTotal(bounds, log), IssuedTotal(bounds, log).count)
  {
    IssuedIsContribution(bounds, log);
    forall i | 0 <= i < |bounds| ensures CountIn(bounds, Observations(log), i) <= |Observations(log)| {
      CountInBounded(bounds, Observations(log), i);
    }
  }

  // ---- The flip -------------------------------------------------------------------------------------------

  lemma FlipKeepsParts(s: State)
    requires Wellformed(s) && Parts(s) && s.lock.Entered?
    requires FewObservations(s) && s.lock.began <= |s.log|
    ensures Wellformed(FlipShards(s)) && Parts(FlipShards(s))
  {
    var s', at := FlipShards(s), |s.log|;
    assert s'.log[..at] == s.log;
    assert s'.log[at..] == [];
    FlipDecodes(s.word);
    assert AppliedTotal(s.bounds, []) == Zero(|s.bounds|);
    PlusZero(Zero(|s.bounds|));
    assert MergedPart(Spin, IssuedTotal(s.bounds, s.log)) == Zero(|s.bounds|);
  }

  lemma FlipDecodes(word: u64)
    ensures Split(Apply(word, Op.Flip)) == (Split(word).0.Inverse(), Split(word).1)
  {
    assert word == Pack(Split(word).0, Split(word).1);
    FlipPacked(Split(word).0, Split(word).1);
  }

  // ---- A step of the collector ----------------------------------------------------------------------------

  /** The collector's place: what is in the two shards, given what all older writers issued. */
  ghost predicate Placed(bounds: seq<F64>, c: Collect, phase: Phase, cold: Tally, hot: Tally, all: Tally, rest: Tally)
    requires |all.buckets| == |rest.buckets| == |bounds|
  {
    && SnapshotSoFar(bounds, c, phase, all)
    && cold == ColdPart(phase, all)
    && hot == Plus(rest, MergedPart(phase, all))
  }

  ghost predicate Fits63(all: Tally, rest: Tally)
    requires |all.buckets| == |rest.buckets|
  {
    && Bounded(Plus(rest, all), TWO63 - 1)
    && forall k :: 0 <= k <= |all.buckets| ==> PrefixSum(all.buckets, k) < TWO63
  }

  /** A step of the collector past its spin moves it to its next place. */
  lemma CollectorAdvances(bounds: seq<F64>, c: Collect, phase: Phase, cold: Tally, hot: Tally, spurious: bool,
                          all: Tally, rest: Tally)
    requires Shard64(|bounds|, cold) && Shard64(|bounds|, hot)
    requires CollectFits(bounds, c, phase) && !phase.Release? && !phase.Spin?
    requires |all.buckets| == |rest.buckets| == |bounds|
    requires Fits63(all, rest)
    requires Placed(bounds, c, phase, cold, hot, all, rest)
    ensures var (c', phase', cold', hot') := CollectorEffect(bounds, c, phase, cold, hot, spurious);
      Placed(bounds, c', phase', cold', hot', all, rest) && !phase'.Spin?
  {
    if phase.SwapSum? || phase.SwapBucket? {
      TakingAdvances(bounds, c, phase, cold, hot, spurious, all, rest);
    } else if phase.MergeBucket? {
      MergeBucketAdvances(bounds, c, phase.i, phase.taken, hot, all, rest);
    } else {
      MergingAdvances(bounds, c, phase, cold, hot, spurious, all, rest);
    }
  }

  lemma TakingAdvances(bounds: seq<F64>, c: Collect, phase: Phase, cold: Tally, hot: Tally, spurious: bool,
                       all: Tally, rest: Tally)
    requires Shard64(|bounds|, cold) && Shard64(|bounds|, hot)
    requires CollectFits(bounds, c, phase) && (phase.SwapSum? || phase.SwapBucket?)
    requires |all.buckets| == |rest.buckets| == |bounds|
    requires Placed(bounds, c, phase, cold, hot, all, rest)
    ensures var (c', phase', cold', hot') := CollectorEffect(bounds, c, phase, cold, hot, spurious);
      Placed(bounds, c', phase', cold', hot', all, rest) && !phase'.Spin?
  {
    match phase
    case SwapSum =>
      assert From(all.buckets, 0) == all.buckets;
      assert Upto(all.buckets, 0) == Zero(|bounds|).buckets;
    case SwapBucket(i) =>
      if i == |bounds| {
        assert From(all.buckets, i) == Zero(|bounds|).buckets;
        assert Upto(all.buckets, i) == all.buckets;
      } else {
        assert From(all.buckets, i)[i := 0] == From(all.buckets, i + 1);
      }
  }

  lemma MergingAdvances(bounds: seq<F64>, c: Collect, phase: Phase, cold: Tally, hot: Tally, spurious: bool,
                        all: Tally, rest: Tally)
    requires Shard64(|bounds|, cold) && Shard64(|bounds|, hot)
    requires CollectFits(bounds, c, phase) && (phase.MergeCount? || phase.LoadHotSum? || phase.CasHotSum?)
    requires |all.buckets| == |rest.buckets| == |bounds|
    requires Fits63(all, rest)
    requires Placed(bounds, c, phase, cold, hot, all, rest)
    ensures var (c', phase', cold', hot') := CollectorEffect(bounds, c, phase, cold, hot, spurious);
      Placed(bounds, c', phase', cold', hot', all, rest) && !phase'.Spin?
  {
    match phase
    case MergeCount =>
      assert Plus(rest, all).count < TWO63;
      assert hot.buckets == Plus(rest, MergedPart(LoadHotSum, all)).buckets;
    case LoadHotSum =>
    case CasHotSum(_) =>
      assert hot.buckets == Plus(rest, all).buckets;
  }

  lemma MergeBucketAdvances(bounds: seq<F64>, c: Collect, i: nat, taken: nat, hot: Tally, all: Tally, rest: Tally)
    requires Shard64(|bounds|, hot) && CollectFits(bounds, c, MergeBucket(i, taken))
    requires |all.buckets| == |rest.buckets| == |bounds|
    requires Fits63(all, rest)
    requires SnapshotSoFar(bounds, c, MergeBucket(i, taken), all)
    requires hot == Plus(rest, MergedPart(MergeBucket(i, taken), all))
    ensures AddToBucket(hot, i, taken) == Plus(rest, MergedPart(SwapBucket(i + 1), all))
    ensures WrappingAdd(c.cumulative, taken) == PrefixSum(all.buckets, i + 1)
  {
    var goal := Plus(rest, MergedPart(SwapBucket(i + 1), all));
    assert Plus(rest, all).buckets[i] < TWO63;
    assert goal.buckets[i] == hot.buckets[i] + taken;
    assert AddToBucket(hot, i, taken).buckets == goal.buckets;
  }

  lemma CountersFit(s: State, at: nat)
    requires Wellformed(s) && FewObservations(s) && at <= |s.log|
    ensures Fits63(IssuedTotal(s.bounds, s.log[..at]), AppliedTotal(s.bounds, s.log[at..]))
  {
    HotBounded(s, at, Release);
    forall k | 0 <= k <= |s.bounds| ensures PrefixSum(IssuedTotal(s.bounds, s.log[..at]).buckets, k) < TWO63 {
      SubLogFits(s, 0, at);
      IssuedIsContribution(s.bounds, s.log[..at]);
      PrefixSumBounded(s.bounds, Observations(s.log[..at]), k);
      IssuedPrefixFew(s, at);
    }
  }

  lemma CollectKeepsParts(s: State, spurious: bool)
    requires Wellformed(s) && Parts(s) && Enabled(s, CollectStep(spurious)) && FewObservations(s)
    requires Wellformed(StepCollect(s, spurious))
    ensures Parts(StepCollect(s, spurious))
  {
    if s.lock.phase.Spin? {
      SpinKeepsParts(s, spurious);
    } else if s.lock.phase.Release? {
      ReleaseKeepsParts(s);
    } else {
      CollectMoves(s, spurious);
    }
  }

  lemma CollectMoves(s: State, spurious: bool)
    requires Wellformed(s) && Parts(s) && Enabled(s, CollectStep(spurious)) && FewObservations(s)
    requires Wellformed(StepCollect(s, spurious)) && !s.lock.phase.Spin? && !s.lock.phase.Release?
    ensures Parts(StepCollect(s, spurious))
  {
    var s', at := StepCollect(s, spurious), s.lock.c.at;
    CollectMovesShards(s, spurious);
    assert s'.log == s.log && s'.word == s.word;
    assert s'.lock.c.at == at && s'.lock.c.began == s.lock.c.began && s'.lock.c.cold == s.lock.c.cold;
    assert WritersSplit(s', s'.lock.c, s'.lock.phase);
  }

  lemma CollectMovesShards(s: State, spurious: bool)
    requires Wellformed(s) && Parts(s) && Enabled(s, CollectStep(spurious)) && FewObservations(s)
    requires !s.lock.phase.Spin? && !s.lock.phase.Release?
    ensures var s', at := StepCollect(s, spurious), s.lock.c.at;
      && s'.lock.Collecting? && !s'.lock.phase.Spin?
      && Placed(s.bounds, s'.lock.c, s'.lock.phase, s'.Shard(s.lock.c.cold), s'.Shard(s.Hot()),
                IssuedTotal(s.bounds, s.log[..at]), AppliedTotal(s.bounds, s.log[at..]))
  {
    var at := s.lock.c.at;
    var all, rest := IssuedTotal(s.bounds, s.log[..at]), AppliedTotal(s.bounds, s.log[at..]);
    CountersFit(s, at);
    assert Placed(s.bounds, s.lock.c, s.lock.phase, s.Shard(s.lock.c.cold), s.Shard(s.Hot()), all, rest);
    CollectorAdvances(s.bounds, s.lock.c, s.lock.phase, s.Shard(s.lock.c.cold), s.Shard(s.Hot()), spurious, all, rest);
  }

  /** The spin ends only when every writer that began before the flip is done. */
  lemma SpinKeepsParts(s: State, spurious: bool)
    requires Wellformed(s) && Parts(s) && Enabled(s, CollectStep(spurious)) && FewObservations(s)
    requires Wellformed(StepCollect(s, spurious)) && s.lock.phase.Spin?
    ensures Parts(StepCollect(s, spurious))
  {
    if spurious || s.Shard(s.lock.c.cold).count != s.lock.c.overall {
      assert StepCollect(s, spurious) == s;
    } else {
      var before := s.log[..s.lock.c.at];
      SubLogFits(s, 0, s.lock.c.at);
      CountReachedMeansDone(s.bounds, before);
      assert forall i :: 0 <= i < s.lock.c.at ==> s.log[i] == before[i];
      SpinEnds(s);
    }
  }

  lemma SpinEnds(s: State)
    requires Wellformed(s) && Parts(s) && s.lock.Collecting? && s.lock.phase.Spin?
    requires s.Shard(s.lock.c.cold).count == s.lock.c.overall
    requires s.lock.c.at <= |s.log| && forall i :: 0 <= i < s.lock.c.at ==> s.log[i].pc.Done?
    requires AppliedTotal(s.bounds, s.log[..s.lock.c.at]) == IssuedTotal(s.bounds, s.log[..s.lock.c.at])
    requires Wellformed(StepCollect(s, false))
    ensures Parts(StepCollect(s, false))
  {
    var s' := StepCollect(s, false);
    assert s'.log == s.log && s'.word == s.word;
    SpinEndsPlaces(s);
  }

  lemma SpinEndsPlaces(s: State)
    requires Shapes(s) && s.lock.Collecting? && s.lock.phase.Spin? && s.Shard(s.lock.c.cold).count == s.lock.c.overall
    requires s.lock.c.cold == s.Hot().Inverse()
    ensures var s' := StepCollect(s, false);
            && s'.lock == Collecting(s.lock.c, SwapSum) && s'.Shard(s.Hot()) == s.Shard(s.Hot())
            && s'.Shard(s.lock.c.cold) == s.Shard(s.lock.c.cold).(count := 0)
  {
  }

  lemma ReleaseKeepsParts(s: State)
    requires Wellformed(s) && Parts(s) && s.lock.Collecting? && s.lock.phase.Release?
    requires Wellformed(StepCollect(s, false))
    ensures Quiet(StepCollect(s, false))
  {
    var at := s.lock.c.at;
    var before := s.log[..at];
    SubLogFits(s, 0, at);
    assert forall i :: 0 <= i < |before| ==> before[i] == s.log[i];
    DoneMeansApplied(s.bounds, before);
    TotalsSplit(s.bounds, s.log, at);
    PlusCommutes(AppliedTotal(s.bounds, before), AppliedTotal(s.bounds, s.log[at..]));
    SubLogFits(s, at, |s.log|);
    assert s.log[at..|s.log|] == s.log[at..];
    ReleaseQuiet(s);
  }

  lemma DoneMeansApplied(bounds: seq<F64>, log: seq<Writer>)
    requires LogFits(bounds, log) && LogJobsFit(bounds, log)
    requires forall i :: 0 <= i < |log| ==> log[i].pc.Done?
    ensures AppliedTotal(bounds, log) == IssuedTotal(bounds, log)
  {
    CountReachedMeansDone(bounds, log);
  }

  lemma ReleaseQuiet(s: State)
    requires Wellformed(s) && s.lock.Collecting? && s.lock.phase.Release? && Draining(s, s.lock.c, s.lock.phase)
    requires LogFits(s.bounds, s.log[..s.lock.c.at]) && LogFits(s.bounds, s.log[s.lock.c.at..])
    requires AppliedTotal(s.bounds, s.log)
          == Plus(AppliedTotal(s.bounds, s.log[s.lock.c.at..]), IssuedTotal(s.bounds, s.log[..s.lock.c.at]))
    requires Wellformed(StepCollect(s, false))
    ensures Quiet(StepCollect(s, false))
  {
  }

  /** What the collect reports is the plain histogram of the observations that began before its flip. */
  lemma ReleaseReportsPlain(s: State)
    requires Wellformed(s) && Increasing(s.bounds) && s.lock.Collecting? && s.lock.phase.Release?
    requires Draining(s, s.lock.c, s.lock.phase)
    ensures Snapshot(s.lock.c.overall, s.lock.c.sum, s.lock.c.rows) == Plain(s.bounds, Observations(s.log[..s.lock.c.at]))
  {
    var c := s.lock.c;
    var before := s.log[..c.at];
    IssuedIsContribution(s.bounds, before);
    var vs := Observations(before);
    forall j | 0 <= j < |s.bounds| ensures c.rows[j] == Row(CountAtMost(vs, s.bounds[j]), s.bounds[j]) {
      PrefixSumCounts(s.bounds, vs, j);
    }
    assert c.rows == Plain(s.bounds, vs).rows;
  }
}
