/**
 The invariant of the two-shard histogram, kept by every action, and the conservation law behind it: hot
 shard, cold shard, what the collector carries and the unfinished part of the writers add up to the log.
 */
module HistogramInvariant {
  import opened Floats
  import opened Integers
  import opened PlainHistogram
  import opened Tallies
  import opened HistogramProtocol

  // ---- What the writers have done and have yet to do ------------------------------------------------------

  /** The first `k` buckets, the rest set to zero. */
  function Upto(buckets: seq<nat>, k: nat): seq<nat> {
    seq(|buckets|, j requires 0 <= j < |buckets| => if j < k then buckets[j] else 0)
  }

  /** The buckets from `k` on, the rest set to zero. */
  function From(buckets: seq<nat>, k: nat): seq<nat> {
    seq(|buckets|, j requires 0 <= j < |buckets| => if j < k then 0 else buckets[j])
  }

  /** Bucket `k` alone. */
  function Only(buckets: seq<nat>, k: nat): seq<nat> {
    seq(|buckets|, j requires 0 <= j < |buckets| => if j == k then buckets[j] else 0)
  }

  /** The part of its job that a writer has already put into its shard. */
  function Applied(bounds: seq<F64>, w: Writer): (t: Tally)
    requires Fitting(bounds, w)
    ensures |t.buckets| == |bounds|
  {
    var full := JobTally(bounds, w.job);
    match w.pc
    case AtBucket(k) => Tally(0, 0.0, Upto(full.buckets, k))
    case AtSumLoad => Tally(0, 0.0, full.buckets)
    case AtSumCas(_) => Tally(0, 0.0, full.buckets)
    case AtCount => Tally(0, full.sum, full.buckets)
    case Done => full
  }

  /** The part of its job that is still to come. */
  function Pending(bounds: seq<F64>, w: Writer): (t: Tally)
    requires Fitting(bounds, w)
    ensures |t.buckets| == |bounds|
  {
    var full := JobTally(bounds, w.job);
    match w.pc
    case AtBucket(k) => Tally(full.count, full.sum, From(full.buckets, k))
    case AtSumLoad => Tally(full.count, full.sum, Zero(|bounds|).buckets)
    case AtSumCas(_) => Tally(full.count, full.sum, Zero(|bounds|).buckets)
    case AtCount => Tally(full.count, 0.0, Zero(|bounds|).buckets)
    case Done => Zero(|bounds|)
  }

  predicate LogFits(bounds: seq<F64>, log: seq<Writer>) {
    forall i :: 0 <= i < |log| ==> Fitting(bounds, log[i])
  }

  function AppliedAll(bounds: seq<F64>, log: seq<Writer>): (ts: seq<Tally>)
    requires LogFits(bounds, log)
    ensures |ts| == |log| && Shaped(|bounds|, ts)
  {
    seq(|log|, i requires 0 <= i < |log| => Applied(bounds, log[i]))
  }

  function IssuedAll(bounds: seq<F64>, log: seq<Writer>): (ts: seq<Tally>)
    requires LogFits(bounds, log)
    ensures |ts| == |log| && Shaped(|bounds|, ts)
  {
    seq(|log|, i requires 0 <= i < |log| => JobTally(bounds, log[i].job))
  }

  function PendingAll(bounds: seq<F64>, log: seq<Writer>): (ts: seq<Tally>)
    requires LogFits(bounds, log)
    ensures |ts| == |log| && Shaped(|bounds|, ts)
  {
    seq(|log|, i requires 0 <= i < |log| => Pending(bounds, log[i]))
  }

  /** Everything the writers of a log have put into shards so far. */
  function AppliedTotal(bounds: seq<F64>, log: seq<Writer>): (t: Tally)
    requires LogFits(bounds, log)
    ensures |t.buckets| == |bounds|
  {
    Total(|bounds|, AppliedAll(bounds, log))
  }

  /** Everything the writers of a log stand for. */
  function IssuedTotal(bounds: seq<F64>, log: seq<Writer>): (t: Tally)
    requires LogFits(bounds, log)
    ensures |t.buckets| == |bounds|
  {
    Total(|bounds|, IssuedAll(bounds, log))
  }

  function PendingTotal(bounds: seq<F64>, log: seq<Writer>): (t: Tally)
    requires LogFits(bounds, log)
    ensures |t.buckets| == |bounds|
  {
    Total(|bounds|, PendingAll(bounds, log))
  }

  lemma AppliedPlusPending(bounds: seq<F64>, w: Writer)
    requires Fitting(bounds, w)
    ensures Plus(Applied(bounds, w), Pending(bounds, w)) == JobTally(bounds, w.job)
  {
    assert Plus(Applied(bounds, w), Pending(bounds, w)).buckets == JobTally(bounds, w.job).buckets;
  }

  lemma {:induction false} AppliedPlusPendingTotal(bounds: seq<F64>, log: seq<Writer>)
    requires LogFits(bounds, log)
    ensures Plus(AppliedTotal(bounds, log), PendingTotal(bounds, log)) == IssuedTotal(bounds, log)
  {
    if log == [] {
      PlusZero(Zero(|bounds|));
    } else {
      var front, w := log[..|log| - 1], log[|log| - 1];
      AppliedPlusPendingTotal(bounds, front);
      AppliedPlusPending(bounds, w);
      assert AppliedAll(bounds, log)[..|log| - 1] == AppliedAll(bounds, front);
      assert PendingAll(bounds, log)[..|log| - 1] == PendingAll(bounds, front);
      assert IssuedAll(bounds, log)[..|log| - 1] == IssuedAll(bounds, front);
      Interchange(AppliedTotal(bounds, front), Applied(bounds, w), PendingTotal(bounds, front), Pending(bounds, w));
    }
  }

  lemma Interchange(a: Tally, b: Tally, c: Tally, d: Tally)
    requires |a.buckets| == |b.buckets| == |c.buckets| == |d.buckets|
    ensures Plus(Plus(a, b), Plus(c, d)) == Plus(Plus(a, c), Plus(b, d))
  {
    assert Plus(Plus(a, b), Plus(c, d)).buckets == Plus(Plus(a, c), Plus(b, d)).buckets;
  }

  lemma TotalsSplit(bounds: seq<F64>, log: seq<Writer>, k: nat)
    requires LogFits(bounds, log) && k <= |log|
    ensures AppliedTotal(bounds, log) == Plus(AppliedTotal(bounds, log[..k]), AppliedTotal(bounds, log[k..]))
    ensures IssuedTotal(bounds, log) == Plus(IssuedTotal(bounds, log[..k]), IssuedTotal(bounds, log[k..]))
    ensures PendingTotal(bounds, log) == Plus(PendingTotal(bounds, log[..k]), PendingTotal(bounds, log[k..]))
  {
    assert AppliedAll(bounds, log) == AppliedAll(bounds, log[..k]) + AppliedAll(bounds, log[k..]);
    assert IssuedAll(bounds, log) == IssuedAll(bounds, log[..k]) + IssuedAll(bounds, log[k..]);
    assert PendingAll(bounds, log) == PendingAll(bounds, log[..k]) + PendingAll(bounds, log[k..]);
    TotalConcat(|bounds|, AppliedAll(bounds, log[..k]), AppliedAll(bounds, log[k..]));
    TotalConcat(|bounds|, IssuedAll(bounds, log[..k]), IssuedAll(bounds, log[k..]));
    TotalConcat(|bounds|, PendingAll(bounds, log[..k]), PendingAll(bounds, log[k..]));
  }

  lemma TotalsAppend(bounds: seq<F64>, log: seq<Writer>, w: Writer)
    requires LogFits(bounds, log) && Fitting(bounds, w)
    ensures AppliedTotal(bounds, log + [w]) == Plus(AppliedTotal(bounds, log), Applied(bounds, w))
    ensures IssuedTotal(bounds, log + [w]) == Plus(IssuedTotal(bounds, log), JobTally(bounds, w.job))
  {
    assert AppliedAll(bounds, log + [w])[..|log|] == AppliedAll(bounds, log);
    assert IssuedAll(bounds, log + [w])[..|log|] == IssuedAll(bounds, log);
  }

  /** A step of one writer adds to the total what it adds to that writer's part. */
  lemma TotalsUpdate(bounds: seq<F64>, log: seq<Writer>, id: nat, w: Writer, d: Tally)
    requires LogFits(bounds, log) && id < |log| && Fitting(bounds, w) && |d.buckets| == |bounds|
    requires w.job == log[id].job
    requires Applied(bounds, w) == Plus(Applied(bounds, log[id]), d)
    ensures AppliedTotal(bounds, log[id := w]) == Plus(AppliedTotal(bounds, log), d)
    ensures IssuedTotal(bounds, log[id := w]) == IssuedTotal(bounds, log)
  {
    var ts := AppliedAll(bounds, log);
    TotalUpdate(|bounds|, ts, id, d);
    assert AppliedAll(bounds, log[id := w]) == ts[id := Plus(ts[id], d)];
    assert IssuedAll(bounds, log[id := w]) == IssuedAll(bounds, log);
  }

  /** One value lands in one bucket: no bucket of a job exceeds its count. */
  lemma AppliedBounded(bounds: seq<F64>, w: Writer)
    requires Fitting(bounds, w) && JobFits(bounds, w.job, w.values)
    ensures Bounded(Applied(bounds, w), JobTally(bounds, w.job).count)
  {
    forall i | 0 <= i < |bounds| ensures CountIn(bounds, w.values, i) <= |w.values| {
      CountInBounded(bounds, w.values, i);
    }
  }

  ghost predicate LogJobsFit(bounds: seq<F64>, log: seq<Writer>) {
    forall i :: 0 <= i < |log| ==> JobFits(bounds, log[i].job, log[i].values)
  }

  lemma AppliedTotalBounded(bounds: seq<F64>, log: seq<Writer>)
    requires LogFits(bounds, log) && LogJobsFit(bounds, log)
    ensures Bounded(AppliedTotal(bounds, log), IssuedTotal(bounds, log).count)
  {
    forall i | 0 <= i < |log| ensures Bounded(Applied(bounds, log[i]), JobTally(bounds, log[i].job).count) {
      AppliedBounded(bounds, log[i]);
    }
    TotalBounded(|bounds|, AppliedAll(bounds, log), IssuedAll(bounds, log));
  }

  /**
   A shard's count reaches the number of observations issued to it only when every writer is done, because
   the count is the last thing a writer increments.
   */
  lemma {:induction false} CountReachedMeansDone(bounds: seq<F64>, log: seq<Writer>)
    requires LogFits(bounds, log) && LogJobsFit(bounds, log)
    ensures AppliedTotal(bounds, log).count <= IssuedTotal(bounds, log).count
    ensures AppliedTotal(bounds, log).count == IssuedTotal(bounds, log).count
       <==> (forall i :: 0 <= i < |log| ==> log[i].pc.Done?)
    ensures (forall i :: 0 <= i < |log| ==> log[i].pc.Done?)
        ==> AppliedTotal(bounds, log) == IssuedTotal(bounds, log)
  {
    if log != [] {
      var front, w := log[..|log| - 1], log[|log| - 1];
      CountReachedMeansDone(bounds, front);
      assert AppliedAll(bounds, log)[..|log| - 1] == AppliedAll(bounds, front);
      assert IssuedAll(bounds, log)[..|log| - 1] == IssuedAll(bounds, front);
      assert JobTally(bounds, w.job).count > 0;
      assert forall i :: 0 <= i < |front| ==> front[i] == log[i];
      assert (forall i :: 0 <= i < |log| ==> log[i].pc.Done?)
          <==> w.pc.Done? && (forall i :: 0 <= i < |front| ==> front[i].pc.Done?);
    }
  }

  /** What a log issues is what its observations contribute. */
  lemma {:induction false} IssuedIsContribution(bounds: seq<F64>, log: seq<Writer>)
    requires LogFits(bounds, log) && LogJobsFit(bounds, log)
    ensures IssuedTotal(bounds, log) == Contribution(bounds, Observations(log))
  {
    if log == [] {
      assert Zero(|bounds|).buckets == Contribution(bounds, []).buckets;
    } else {
      var front, w := log[..|log| - 1], log[|log| - 1];
      IssuedIsContribution(bounds, front);
      assert IssuedAll(bounds, log)[..|log| - 1] == IssuedAll(bounds, front);
      ContributionConcat(bounds, Observations(front), w.values);
    }
  }

  lemma {:induction false} ObservationsSame(a: seq<Writer>, b: seq<Writer>)
    requires |a| == |b| && forall i :: 0 <= i < |a| ==> a[i].values == b[i].values
    ensures Observations(a) == Observations(b)
  {
    if a != [] {
      ObservationsSame(a[..|a| - 1], b[..|b| - 1]);
    }
  }

  lemma {:induction false} ObservationsConcat(a: seq<Writer>, b: seq<Writer>)
    ensures Observations(a + b) == Observations(a) + Observations(b)
    decreases |b|
  {
    if b == [] {
      assert a + b == a;
    } else {
      assert (a + b)[..|a + b| - 1] == a + b[..|b| - 1];
      ObservationsConcat(a, b[..|b| - 1]);
    }
  }

  // ---- What the collector has done and has yet to do ------------------------------------------------------

  /** What is left in the cold shard, of the `all` it held when the last writer left it. */
  function ColdPart(phase: Phase, all: Tally): (t: Tally)
    ensures |t.buckets| == |all.buckets|
  {
    match phase
    case Spin => all
    case SwapSum => Tally(0, all.sum, all.buckets)
    case SwapBucket(i) => Tally(0, 0.0, From(all.buckets, i))
    case MergeBucket(i, _) => Tally(0, 0.0, From(all.buckets, i + 1))
    case _ => Zero(|all.buckets|)
  }

  /** What the collector has added to the hot shard. */
  function MergedPart(phase: Phase, all: Tally): (t: Tally)
    ensures |t.buckets| == |all.buckets|
  {
    match phase
    case Spin => Zero(|all.buckets|)
    case SwapSum => Zero(|all.buckets|)
    case SwapBucket(i) => Tally(0, 0.0, Upto(all.buckets, i))
    case MergeBucket(i, _) => Tally(0, 0.0, Upto(all.buckets, i))
    case MergeCount => Tally(0, 0.0, all.buckets)
    case LoadHotSum => Tally(all.count, 0.0, all.buckets)
    case CasHotSum(_) => Tally(all.count, 0.0, all.buckets)
    case Release => all
  }

  /** What the collector has taken out of the cold shard and not yet added to the hot one. */
  function HeldPart(phase: Phase, all: Tally): (t: Tally)
    ensures |t.buckets| == |all.buckets|
  {
    var none := Zero(|all.buckets|).buckets;
    match phase
    case Spin => Zero(|all.buckets|)
    case SwapSum => Tally(all.count, 0.0, none)
    case SwapBucket(_) => Tally(all.count, all.sum, none)
    case MergeBucket(i, _) => Tally(all.count, all.sum, Only(all.buckets, i))
    case MergeCount => Tally(all.count, all.sum, none)
    case LoadHotSum => Tally(0, all.sum, none)
    case CasHotSum(_) => Tally(0, all.sum, none)
    case Release => Zero(|all.buckets|)
  }

  lemma PartsAddUp(phase: Phase, all: Tally)
    requires phase.SwapBucket? ==> phase.i <= |all.buckets|
    ensures Plus(Plus(ColdPart(phase, all), MergedPart(phase, all)), HeldPart(phase, all)) == all
  {
    assert Plus(Plus(ColdPart(phase, all), MergedPart(phase, all)), HeldPart(phase, all)).buckets == all.buckets;
  }

  /** How many rows of the snapshot are finished. */
  function RowsDone(n: nat, phase: Phase): nat {
    match phase
    case Spin => 0
    case SwapSum => 0
    case SwapBucket(i) => i
    case MergeBucket(i, _) => i
    case _ => n
  }

  ghost predicate SnapshotSoFar(bounds: seq<F64>, c: Collect, phase: Phase, all: Tally)
    requires |all.buckets| == |bounds|
  {
    var k := RowsDone(|bounds|, phase);
    && k <= |bounds|
    && c.overall == all.count
    && c.sum == (if phase.Spin? || phase.SwapSum? then 0.0 else all.sum)
    && c.cumulative == PrefixSum(all.buckets, k)
    && |c.rows| == k
    && (forall j :: 0 <= j < k ==> c.rows[j] == Row(PrefixSum(all.buckets, j + 1), bounds[j]))
    && (phase.MergeBucket? ==> phase.i < |bounds| && phase.taken == all.buckets[phase.i])
  }

  // ---- The invariant --------------------------------------------------------------------------------------

  /** Fewer than 2^63 observations have begun. */
  ghost predicate FewObservations(s: State)
    requires LogFits(s.bounds, s.log)
  {
    IssuedTotal(s.bounds, s.log).count < TWO63
  }

  ghost predicate Wellformed(s: State) {
    && Shapes(s)
    && LogJobsFit(s.bounds, s.log)
  }

  ghost predicate Inv(s: State) {
    && Wellformed(s)
    && Increasing(s.bounds)
    && (FewObservations(s) ==> Consistent(s))
  }

  ghost predicate Consistent(s: State)
    requires Wellformed(s)
  {
    && s.Started() == IssuedTotal(s.bounds, s.log).count
    && (match s.lock
        case Free => Quiet(s)
        case Entered(began) => Quiet(s) && began <= |s.log|
        case ReadEntered => Quiet(s)
        case ReadAt(shard) => Quiet(s) && shard == s.Hot()
        case ReadValue(_) => Quiet(s)
        case Collecting(c, phase) => Draining(s, c, phase))
    && History(s)
  }

  /** No collect past its flip: the cold shard is all zero and no writer is at work on it. */
  ghost predicate Quiet(s: State)
    requires Wellformed(s)
  {
    && s.Shard(s.Hot()) == AppliedTotal(s.bounds, s.log)
    && s.Shard(s.Hot().Inverse()) == Zero(|s.bounds|)
    && (forall i :: 0 <= i < |s.log| && !s.log[i].pc.Done? ==> s.log[i].shard == s.Hot())
  }

  /** A collect past its flip: older writers are on the cold shard, younger ones on the hot shard. */
  ghost predicate Draining(s: State, c: Collect, phase: Phase)
    requires Wellformed(s)
  {
    && c.began <= c.at <= |s.log|
    && c.cold == s.Hot().Inverse()
    && WritersSplit(s, c, phase)
    && var all := IssuedTotal(s.bounds, s.log[..c.at]);
    && SnapshotSoFar(s.bounds, c, phase, all)
    && s.Shard(c.cold) == (if phase.Spin? then AppliedTotal(s.bounds, s.log[..c.at]) else ColdPart(phase, all))
    && s.Shard(s.Hot()) == Plus(AppliedTotal(s.bounds, s.log[c.at..]), MergedPart(phase, all))
  }

  /** Once the spin is over, every writer that began before the flip is done. */
  ghost predicate WritersSplit(s: State, c: Collect, phase: Phase)
    requires c.at <= |s.log|
  {
    && (forall i :: 0 <= i < c.at && !s.log[i].pc.Done? ==> s.log[i].shard == c.cold && phase.Spin?)
    && (forall i :: c.at <= i < |s.log| ==> s.log[i].shard == s.Hot())
  }

  ghost predicate Truthful(bounds: seq<F64>, log: seq<Writer>, c: Collected) {
    && c.began <= c.at <= c.ended <= |log|
    && c.snapshot == Plain(bounds, Observations(log[..c.at]))
  }

  /** Every finished collect reported the plain histogram of the log up to its flip; collects do not overlap. */
  ghost predicate History(s: State) {
    && (forall i :: 0 <= i < |s.collected| ==> Truthful(s.bounds, s.log, s.collected[i]))
    && (forall i, j :: 0 <= i < j < |s.collected| ==> s.collected[i].ended <= s.collected[j].began)
    && (s.lock.Entered? ==> forall i :: 0 <= i < |s.collected| ==> s.collected[i].ended <= s.lock.began)
    && (s.lock.Collecting? ==> forall i :: 0 <= i < |s.collected| ==> s.collected[i].ended <= s.lock.c.began)
  }

  lemma InitInv(bounds: seq<F64>)
    requires Increasing(bounds)
    ensures Inv(Init(bounds))
  {
  }
}
