/** The collector's spin: when it ends, and why the writers it waits for get there. */
module HistogramProgress {
  import opened Floats
  import opened HistogramProtocol
  import opened HistogramInvariant
  import opened HistogramSteps

  ghost predicate Spinning(s: State) {
    s.lock.Collecting? && s.lock.phase.Spin?
  }

  /** The collector's compare-and-swap meets its target exactly when no writer is pending on the cold shard. */
  lemma SpinEndsIffDrained(s: State)
    requires Inv(s) && FewObservations(s) && Spinning(s)
    ensures s.Shard(s.lock.c.cold).count == s.lock.c.overall
       <==> (forall i :: 0 <= i < |s.log| && s.log[i].shard == s.lock.c.cold ==> s.log[i].pc.Done?)
    ensures StepCollect(s, false).lock.phase.SwapSum? <==> s.Shard(s.lock.c.cold).count == s.lock.c.overall
  {
    var before := s.log[..s.lock.c.at];
    SubLogFits(s, 0, s.lock.c.at);
    CountReachedMeansDone(s.bounds, before);
    assert forall i :: 0 <= i < s.lock.c.at ==> s.log[i] == before[i];
  }

  /** After the flip no writer can join the cold shard. */
  lemma NoneJoinsCold(s: State, job: Job, values: seq<real>)
    requires Inv(s) && FewObservations(s) && s.lock.Collecting? && Enabled(s, Begin(job, values))
    ensures BeginWrite(s, job, values).log[|s.log|].shard == s.lock.c.cold.Inverse()
  {
  }

  /** Atomic operations a writer has yet to do, not counting retries of its sum. */
  function Left(bounds: seq<F64>, w: Writer): nat
    requires Fitting(bounds, w)
  {
    match w.pc
    case AtBucket(k) => if w.job.Observe? then 3 else |bounds| - k + 2
    case AtSumLoad => 2
    case AtSumCas(_) => 2
    case AtCount => 1
    case Done => 0
  }

  /** How far a writer is from a compare-and-swap that succeeds, given the shard's sum. */
  function Retry(w: Writer, sum: real): nat {
    match w.pc
    case AtSumLoad => 1
    case AtSumCas(expected) => if expected == sum then 0 else 2
    case _ => 0
  }

  function LeftAll(bounds: seq<F64>, log: seq<Writer>): nat
    requires LogFits(bounds, log)
  {
    if log == [] then 0 else LeftAll(bounds, log[..|log| - 1]) + Left(bounds, log[|log| - 1])
  }

  function RetryAll(log: seq<Writer>, sum: real): nat {
    if log == [] then 0 else RetryAll(log[..|log| - 1], sum) + Retry(log[|log| - 1], sum)
  }

  lemma {:induction false} LeftUpdate(bounds: seq<F64>, log: seq<Writer>, id: nat, w: Writer)
    requires LogFits(bounds, log) && id < |log| && Fitting(bounds, w)
    ensures LeftAll(bounds, log[id := w]) == LeftAll(bounds, log) - Left(bounds, log[id]) + Left(bounds, w)
  {
    var front := log[..|log| - 1];
    if id < |front| {
      LeftUpdate(bounds, front, id, w);
      assert log[id := w][..|log| - 1] == front[id := w];
    } else {
      assert log[id := w][..|log| - 1] == front;
    }
  }

  lemma {:induction false} RetryUpdate(log: seq<Writer>, id: nat, w: Writer, sum: real)
    requires id < |log|
    ensures RetryAll(log[id := w], sum) == RetryAll(log, sum) - Retry(log[id], sum) + Retry(w, sum)
  {
    var front := log[..|log| - 1];
    if id < |front| {
      RetryUpdate(front, id, w, sum);
      assert log[id := w][..|log| - 1] == front[id := w];
    } else {
      assert log[id := w][..|log| - 1] == front;
    }
  }

  /** The measure of the drain: operations left, then distance from a successful compare-and-swap. */
  ghost function Measure(s: State): (nat, nat)
    requires Wellformed(s) && s.lock.Collecting? && s.lock.c.at <= |s.log|
  {
    (LeftAll(s.bounds, s.log[..s.lock.c.at]), RetryAll(s.log[..s.lock.c.at], s.Shard(s.lock.c.cold).sum))
  }

  predicate Smaller(a: (nat, nat), b: (nat, nat)) {
    a.0 < b.0 || (a.0 == b.0 && a.1 < b.1)
  }

  /**
   Every step of a writer on the cold shard makes the measure smaller, unless its compare-and-swap fails
   for no reason: a sum that another writer changed costs a retry, but that writer has moved on for good.
   Where it does fail for no reason, that costs one retry and nothing else.
   */
  lemma ColdWriterProgresses(s: State, id: nat, spurious: bool)
    requires Inv(s) && FewObservations(s) && Spinning(s)
    requires id < |s.log| && s.log[id].shard == s.lock.c.cold && !s.log[id].pc.Done?
    ensures Wellformed(StepWriter(s, id, spurious)) && s.lock.c.at <= |s.log|
    ensures var m, m' := Measure(s), Measure(StepWriter(s, id, spurious));
            if spurious && s.log[id].pc.AtSumCas? then m'.0 == m.0 && m'.1 <= m.1 + 1 else Smaller(m', m)
  {
    WriteKeepsShapes(s, id, spurious);
    assert Draining(s, s.lock.c, s.lock.phase);
    ColdWriterMeasured(s, id, spurious);
  }

  lemma ColdWriterMeasured(s: State, id: nat, spurious: bool)
    requires Wellformed(s) && Spinning(s) && s.lock.c.at <= |s.log|
    requires id < s.lock.c.at && s.log[id].shard == s.lock.c.cold && !s.log[id].pc.Done?
    requires Wellformed(StepWriter(s, id, spurious))
    ensures var m, m' := Measure(s), Measure(StepWriter(s, id, spurious));
            if spurious && s.log[id].pc.AtSumCas? then m'.0 == m.0 && m'.1 <= m.1 + 1 else Smaller(m', m)
  {
    var s', at, w := StepWriter(s, id, spurious), s.lock.c.at, s.log[id];
    var w' := s'.log[id];
    assert s'.log[..at] == s.log[..at][id := w'];
    SubLogFits(s, 0, at);
    LeftUpdate(s.bounds, s.log[..at], id, w');
    RetryUpdate(s.log[..at], id, w', s.Shard(w.shard).sum);
  }

  /** No other action raises it: writers on the hot shard, new writers and failing spins leave it as it is. */
  lemma OthersKeepMeasure(s: State, a: Action)
    requires Inv(s) && FewObservations(s) && Spinning(s) && Enabled(s, a)
    requires a.Write? ==> s.log[a.id].shard != s.lock.c.cold
    requires Spinning(Next(s, a))
    ensures Wellformed(Next(s, a)) && s.lock.c.at <= |s.log|
    ensures Measure(Next(s, a)) == Measure(s)
  {
    StepKeepsWellformed(s, a);
    assert Next(s, a).log[..s.lock.c.at] == s.log[..s.lock.c.at];
  }

  lemma {:induction false} NothingLeftMeansDone(bounds: seq<F64>, log: seq<Writer>)
    requires LogFits(bounds, log)
    ensures LeftAll(bounds, log) == 0 <==> forall i :: 0 <= i < |log| ==> log[i].pc.Done?
  {
    if log != [] {
      var front, w := log[..|log| - 1], log[|log| - 1];
      NothingLeftMeansDone(bounds, front);
      assert (forall i :: 0 <= i < |log| ==> log[i].pc.Done?)
          <==> w.pc.Done? && (forall i :: 0 <= i < |front| ==> front[i].pc.Done?);
    }
  }

  /** When the measure has run out the collector's next try succeeds; until then some cold writer can step. */
  lemma DrainEnds(s: State)
    requires Inv(s) && FewObservations(s) && Spinning(s)
    ensures s.lock.c.at <= |s.log|
    ensures Measure(s).0 == 0 <==> StepCollect(s, false).lock.phase.SwapSum?
    ensures Measure(s).0 > 0 ==>
              exists id :: 0 <= id < s.lock.c.at && s.log[id].shard == s.lock.c.cold && !s.log[id].pc.Done?
  {
    var before := s.log[..s.lock.c.at];
    SubLogFits(s, 0, s.lock.c.at);
    NothingLeftMeansDone(s.bounds, before);
    CountReachedMeansDone(s.bounds, before);
    assert forall i :: 0 <= i < s.lock.c.at ==> s.log[i] == before[i];
  }

  /** A bound on the operations a collector has yet to do, when nothing interferes. */
  function PhasesLeft(s: State): nat
    requires Shapes(s)
  {
    if !s.lock.Collecting? then 0
    else
      var n := |s.bounds|;
      match s.lock.phase
      case Spin => 2 * n + 8
      case SwapSum => 2 * n + 7
      case SwapBucket(i) => 2 * (n - i) + 6
      case MergeBucket(i, _) => 2 * (n - i) + 5
      case MergeCount => 5
      case LoadHotSum => 4
      case CasHotSum(expected) => if expected == s.Shard(s.lock.c.cold.Inverse()).sum then 3 else 5
      case Release => 2
  }

  /**
   Each operation of a collector whose own compare-and-swap does not fail spuriously brings it nearer to its
   release, once the writers of the cold shard are done; writers may be at work on the hot shard.
   */
  lemma CollectorProgresses(s: State)
    requires Inv(s) && FewObservations(s) && s.lock.Collecting?
    requires s.lock.phase.Spin? ==> forall i :: 0 <= i < |s.log| && s.log[i].shard == s.lock.c.cold ==> s.log[i].pc.Done?
    ensures Shapes(StepCollect(s, false)) && PhasesLeft(StepCollect(s, false)) < PhasesLeft(s)
  {
    StepKeepsWellformed(s, CollectStep(false));
    if s.lock.phase.Spin? {
      SpinEndsIffDrained(s);
    } else {
      CollectorNearer(s);
    }
  }

  /** Past the spin this needs no more than the shapes. */
  lemma CollectorNearer(s: State)
    requires Shapes(s) && s.lock.Collecting? && !s.lock.phase.Spin? && Shapes(StepCollect(s, false))
    ensures PhasesLeft(StepCollect(s, false)) < PhasesLeft(s)
  {
  }

  /** The writer's next operation is a compare-and-swap of the hot sum that goes through. */
  predicate SwapsHotSum(s: State, a: Action) {
    && a.Write? && !a.spurious && a.id < |s.log|
    && s.log[a.id].shard == s.Hot() && s.log[a.id].pc == AtSumCas(s.Shard(s.Hot()).sum)
  }

  /**
   Nobody else moves a collector back, except that a writer whose compare-and-swap of the hot sum goes through
   may cost it one retry of its own.
   */
  lemma OthersCostARetry(s: State, a: Action)
    requires Inv(s) && FewObservations(s) && s.lock.Collecting? && Enabled(s, a) && !a.CollectStep?
    ensures Shapes(Next(s, a)) && PhasesLeft(Next(s, a)) <= PhasesLeft(s) + 2
    ensures PhasesLeft(Next(s, a)) > PhasesLeft(s) ==> s.lock.phase.CasHotSum? && SwapsHotSum(s, a)
  {
    StepKeepsWellformed(s, a);
    if a.Write? {
      assert s.lock.c.cold == s.Hot().Inverse();
      WriteCostsARetry(s, a.id, a.spurious);
    }
  }

  lemma WriteCostsARetry(s: State, id: nat, spurious: bool)
    requires Shapes(s) && s.lock.Collecting? && s.lock.c.cold == s.Hot().Inverse()
    requires id < |s.log| && !s.log[id].pc.Done? && Shapes(StepWriter(s, id, spurious))
    ensures PhasesLeft(StepWriter(s, id, spurious)) <= PhasesLeft(s) + 2
    ensures PhasesLeft(StepWriter(s, id, spurious)) > PhasesLeft(s) ==>
              s.lock.phase.CasHotSum? && SwapsHotSum(s, Write(id, spurious))
  {
  }
}
