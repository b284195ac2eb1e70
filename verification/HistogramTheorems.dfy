/** What the two-shard histogram guarantees over every run of any number of writers and collectors. */
module HistogramTheorems {
  import opened Floats
  import opened Integers
  import opened PackedWord
  import opened PlainHistogram
  import opened Tallies
  import opened HistogramProtocol
  import opened HistogramInvariant
  import opened HistogramSteps

  // ---- Runs keep the invariant ----------------------------------------------------------------------------

  lemma StepInv(s: State, a: Action, s': State)
    requires Inv(s) && IsStep(s, a, s')
    ensures Inv(s') && s'.bounds == s.bounds
    ensures FewObservations(s') ==> FewObservations(s)
  {
    StepKeepsInv(s, a);
    StepKeepsFew(s, a);
  }

  lemma {:induction false} RunKeepsInv(bounds: seq<F64>, states: seq<State>, actions: seq<Action>, i: nat)
    requires Increasing(bounds) && IsRun(bounds, states, actions) && i <= |actions|
    ensures Inv(states[i]) && states[i].bounds == bounds
  {
    if i == 0 {
      InitInv(bounds);
    } else {
      RunKeepsInv(bounds, states, actions, i - 1);
      assert IsStep(states[i - 1], actions[i - 1], states[i]);
      StepInv(states[i - 1], actions[i - 1], states[i]);
    }
  }

  /** The log keeps every write at its position, with the observations it stands for. */
  ghost predicate LogExtends(a: State, b: State) {
    && |a.log| <= |b.log|
    && (forall id :: 0 <= id < |a.log| ==> b.log[id].values == a.log[id].values && b.log[id].shard == a.log[id].shard)
  }

  lemma StepExtendsLog(s: State, a: Action)
    requires Shapes(s) && Enabled(s, a)
    ensures LogExtends(s, Next(s, a))
  {
  }

  lemma LogExtendsTransitive(a: State, b: State, c: State)
    requires LogExtends(a, b) && LogExtends(b, c)
    ensures LogExtends(a, c)
  {
  }

  lemma {:induction false} RunExtendsLog(bounds: seq<F64>, states: seq<State>, actions: seq<Action>, i: nat, j: nat)
    requires IsRun(bounds, states, actions) && i <= j <= |actions|
    ensures LogExtends(states[i], states[j])
    decreases j - i
  {
    if i < j {
      RunExtendsLog(bounds, states, actions, i, j - 1);
      assert IsStep(states[j - 1], actions[j - 1], states[j]);
      StepExtendsLog(states[j - 1], actions[j - 1]);
      LogExtendsTransitive(states[i], states[j - 1], states[j]);
    }
  }

  // ---- Linearizability ------------------------------------------------------------------------------------

  /** The run holds the collect `c`: it took the lock at step `p`, flipped at `q` and released at `r`. */
  ghost predicate CollectRan(states: seq<State>, actions: seq<Action>, c: Collected, p: nat, q: nat, r: nat)
    requires |states| == |actions| + 1
  {
    && p < q < r < |actions|
    && actions[p].TakeLock? && |states[p].log| == c.began
    && actions[q].Flip? && |states[q].log| == c.at
    && actions[r].CollectStep? && |states[r].log| == c.ended
    && states[r + 1].collected == states[r].collected + [c]
  }

  ghost predicate LockRan(states: seq<State>, actions: seq<Action>, began: nat, p: nat, i: nat)
    requires |states| == |actions| + 1
  {
    p < i <= |actions| && actions[p].TakeLock? && |states[p].log| == began
  }

  ghost predicate FlipRan(states: seq<State>, actions: seq<Action>, began: nat, at: nat, p: nat, q: nat, i: nat)
    requires |states| == |actions| + 1
  {
    p < q < i <= |actions| && LockRan(states, actions, began, p, i) && actions[q].Flip? && |states[q].log| == at
  }

  /** A collect under way has taken the lock, and flipped, at the log lengths it recorded. */
  lemma {:induction false} LockHasCause(bounds: seq<F64>, states: seq<State>, actions: seq<Action>, i: nat)
    returns (p: nat, q: nat)
    requires IsRun(bounds, states, actions) && i <= |actions|
    ensures states[i].lock.Entered? ==> LockRan(states, actions, states[i].lock.began, p, i)
    ensures states[i].lock.Collecting? ==>
              FlipRan(states, actions, states[i].lock.c.began, states[i].lock.c.at, p, q, i)
  {
    p, q := 0, 0;
    if i > 0 {
      assert IsStep(states[i - 1], actions[i - 1], states[i]);
      p, q := LockHasCause(bounds, states, actions, i - 1);
      match actions[i - 1]
      case TakeLock => p := i - 1;
      case Flip => q := i - 1;
      case _ =>
    }
  }

  lemma {:induction false} CollectHasCause(bounds: seq<F64>, states: seq<State>, actions: seq<Action>, i: nat, k: nat)
    returns (p: nat, q: nat, r: nat)
    requires IsRun(bounds, states, actions) && i <= |actions| && k < |states[i].collected|
    ensures CollectRan(states, actions, states[i].collected[k], p, q, r) && r < i
  {
    assert IsStep(states[i - 1], actions[i - 1], states[i]);
    if k < |states[i - 1].collected| {
      assert states[i].collected[k] == states[i - 1].collected[k];
      p, q, r := CollectHasCause(bounds, states, actions, i - 1, k);
    } else {
      p, q := LockHasCause(bounds, states, actions, i - 1);
      r := i - 1;
    }
  }

  /** The write at position `id` of the log is in the snapshot. */
  predicate Included(c: Collected, id: nat) {
    id < c.at
  }

  /**
   Linearizability.  In every run, every finished collect reports the plain histogram of exactly the
   observations whose `fetch_add` came before its flip (step `q`).  A write that had returned when the
   collect took the lock (step `p`) is among them, and one that began after the release (step `r`) is not.
   */
  lemma Linearizable(bounds: seq<F64>, states: seq<State>, actions: seq<Action>, i: nat, k: nat)
    returns (p: nat, q: nat, r: nat)
    requires Increasing(bounds) && IsRun(bounds, states, actions)
    requires i <= |actions| && k < |states[i].collected|
    requires LogFits(bounds, states[i].log) && IssuedTotal(bounds, states[i].log).count < TWO63
    ensures CollectRan(states, actions, states[i].collected[k], p, q, r) && r < i
    ensures states[i].collected[k].snapshot == Plain(bounds, Observations(states[q].log))
    ensures forall id: nat :: Included(states[i].collected[k], id) <==> id < |states[q].log|
    ensures forall id: nat :: id < |states[p].log| && states[p].log[id].pc.Done? ==> Included(states[i].collected[k], id)
    ensures forall id: nat :: |states[r + 1].log| <= id ==> !Included(states[i].collected[k], id)
  {
    RunKeepsInv(bounds, states, actions, i);
    assert Consistent(states[i]);
    var c := states[i].collected[k];
    assert Truthful(bounds, states[i].log, c);
    p, q, r := CollectHasCause(bounds, states, actions, i, k);
    RunExtendsLog(bounds, states, actions, p, q);
    RunExtendsLog(bounds, states, actions, q, r + 1);
    RunExtendsLog(bounds, states, actions, q, i);
    ObservationsSame(states[i].log[..c.at], states[q].log);
  }

  /** Bucket `j` of every snapshot counts exactly the values at most bound `j`; buckets never decrease along the bounds. */
  lemma SnapshotShape(s: State, k: nat)
    requires Inv(s) && FewObservations(s) && k < |s.collected|
    ensures var c := s.collected[k];
            var vs := Observations(s.log[..c.at]);
      && |c.snapshot.rows| == |s.bounds| && c.snapshot.count == |vs|
      && (forall j :: 0 <= j < |s.bounds| ==> c.snapshot.rows[j].upperBound == s.bounds[j])
      && (forall j :: 0 <= j < |s.bounds| && s.bounds[j].Finite? ==>
           c.snapshot.rows[j].cumulative == |set n | 0 <= n < |vs| && vs[n] <= s.bounds[j].value|)
      && (forall j :: 0 <= j < |s.bounds| ==> c.snapshot.rows[j].cumulative <= c.snapshot.count)
      && (forall i, j :: 0 <= i < j < |s.bounds| ==>
           c.snapshot.rows[i].cumulative <= c.snapshot.rows[j].cumulative)
  {
    assert Truthful(s.bounds, s.log, s.collected[k]);
    PlainShape(s.bounds, Observations(s.log[..s.collected[k].at]));
    PlainTells(s.bounds, Observations(s.log[..s.collected[k].at]));
  }

  /** Successive snapshots never decrease, count by count. */
  lemma SnapshotsMonotone(s: State, i: nat, j: nat)
    requires Inv(s) && FewObservations(s) && i < j < |s.collected|
    ensures PointwiseAtMost(s.collected[i].snapshot, s.collected[j].snapshot)
  {
    var a, b := s.collected[i], s.collected[j];
    assert Truthful(s.bounds, s.log, a) && Truthful(s.bounds, s.log, b);
    assert s.log[..b.at] == s.log[..a.at] + s.log[a.at..b.at];
    ObservationsConcat(s.log[..a.at], s.log[a.at..b.at]);
    PlainMonotone(s.bounds, Observations(s.log[..a.at]), Observations(s.log[a.at..b.at]));
  }

  /** A flushed batch is in a snapshot as a whole or not at all. */
  lemma BatchAllOrNothing(s: State, k: nat, id: nat)
    requires Inv(s) && FewObservations(s) && k < |s.collected| && id < |s.log|
    ensures var c := s.collected[k];
      if id < c.at
      then c.snapshot == Plain(s.bounds, Observations(s.log[..id]) + s.log[id].values + Observations(s.log[id + 1..c.at]))
      else c.snapshot == Plain(s.bounds, Observations(s.log[..id][..c.at]))
  {
    var c := s.collected[k];
    assert Truthful(s.bounds, s.log, c);
    if id < c.at {
      assert s.log[..c.at] == s.log[..id + 1] + s.log[id + 1..c.at];
      ObservationsConcat(s.log[..id + 1], s.log[id + 1..c.at]);
      assert s.log[..id + 1][..id] == s.log[..id];
    } else {
      assert s.log[..id][..c.at] == s.log[..c.at];
    }
  }

  // ---- Conservation ---------------------------------------------------------------------------------------

  /** What the collector has taken out of the cold shard and not yet put into the hot one. */
  ghost function Held(s: State): (t: Tally)
    requires Wellformed(s)
    requires s.lock.Collecting? ==> s.lock.c.at <= |s.log|
    ensures |t.buckets| == |s.bounds|
  {
    if s.lock.Collecting? then HeldPart(s.lock.phase, IssuedTotal(s.bounds, s.log[..s.lock.c.at])) else Zero(|s.bounds|)
  }

  /**
   Conservation, in every reachable state: both shards, what the collector holds and the unfinished part of
   every writer add up, bucket by bucket, in the sum and in the count, to the observations of the log.
   */
  lemma Conservation(s: State)
    requires Inv(s) && FewObservations(s)
    ensures s.lock.Collecting? ==> s.lock.c.at <= |s.log|
    ensures Plus(Plus(Plus(s.first, s.second), Held(s)), PendingTotal(s.bounds, s.log))
         == Contribution(s.bounds, Observations(s.log))
  {
    IssuedIsContribution(s.bounds, s.log);
    PlusCommutes(s.first, s.second);
    if s.lock.Collecting? {
      ConservedWhileDraining(s);
    } else {
      AppliedPlusPendingTotal(s.bounds, s.log);
      PlusZero(AppliedTotal(s.bounds, s.log));
    }
  }

  lemma ConservedWhileDraining(s: State)
    requires Inv(s) && FewObservations(s) && s.lock.Collecting?
    ensures s.lock.c.at <= |s.log|
    ensures Plus(Plus(Plus(s.Shard(s.lock.c.cold), s.Shard(s.Hot())), Held(s)), PendingTotal(s.bounds, s.log))
         == IssuedTotal(s.bounds, s.log)
  {
    var at, phase := s.lock.c.at, s.lock.phase;
    var old', new' := s.log[..at], s.log[at..];
    SubLogFits(s, 0, at);
    SubLogFits(s, at, |s.log|);
    var all, merged, held := IssuedTotal(s.bounds, old'), MergedPart(phase, IssuedTotal(s.bounds, old')), Held(s);
    var cold, rest := s.Shard(s.lock.c.cold), AppliedTotal(s.bounds, new');
    var p, p' := PendingTotal(s.bounds, old'), PendingTotal(s.bounds, new');
    AppliedPlusPendingTotal(s.bounds, old');
    AppliedPlusPendingTotal(s.bounds, new');
    TotalsSplit(s.bounds, s.log, at);
    assert Plus(Plus(Plus(cold, merged), held), p) == all by {
      if phase.Spin? {
        PlusZero(cold);
      } else {
        assert forall i :: 0 <= i < |old'| ==> old'[i] == s.log[i];
        NothingPending(s.bounds, old');
        PartsAddUp(phase, all);
        PlusZero(all);
      }
    }
    Regroup(cold, rest, merged, held, p, p');
  }

  lemma {:induction false} NothingPending(bounds: seq<F64>, log: seq<Writer>)
    requires LogFits(bounds, log) && forall i :: 0 <= i < |log| ==> log[i].pc.Done?
    ensures PendingTotal(bounds, log) == Zero(|bounds|)
  {
    if log != [] {
      NothingPending(bounds, log[..|log| - 1]);
      assert PendingAll(bounds, log)[..|log| - 1] == PendingAll(bounds, log[..|log| - 1]);
      PlusZero(Zero(|bounds|));
    }
  }

  lemma Regroup(cold: Tally, rest: Tally, merged: Tally, held: Tally, p: Tally, p': Tally)
    requires |cold.buckets| == |rest.buckets| == |merged.buckets| == |held.buckets| == |p.buckets| == |p'.buckets|
    ensures Plus(Plus(Plus(cold, Plus(rest, merged)), held), Plus(p, p'))
         == Plus(Plus(Plus(Plus(cold, merged), held), p), Plus(rest, p'))
  {
    assert Plus(Plus(Plus(cold, Plus(rest, merged)), held), Plus(p, p')).buckets
        == Plus(Plus(Plus(Plus(cold, merged), held), p), Plus(rest, p')).buckets;
  }

  /** While the collect lock is free the cold shard is all zero and no writer is at work on it. */
  lemma ColdIsIdle(s: State)
    requires Inv(s) && FewObservations(s) && s.lock.Free?
    ensures s.Shard(s.Hot().Inverse()) == Zero(|s.bounds|)
    ensures forall i :: 0 <= i < |s.log| && s.log[i].shard == s.Hot().Inverse() ==> s.log[i].pc.Done?
  {
  }

  // ---- A histogram at rest is determined by its observations ----------------------------------------------

  ghost predicate AtRest(s: State) {
    s.lock.Free? && forall i :: 0 <= i < |s.log| ==> s.log[i].pc.Done?
  }

  lemma RestContents(s: State)
    requires Inv(s) && FewObservations(s) && AtRest(s)
    ensures s.Shard(s.Hot()) == Contribution(s.bounds, Observations(s.log))
    ensures s.Shard(s.Hot().Inverse()) == Zero(|s.bounds|)
    ensures |Observations(s.log)| < TWO63 && s.word == Pack(s.Hot(), |Observations(s.log)|)
  {
    IssuedIsContribution(s.bounds, s.log);
    CountReachedMeansDone(s.bounds, s.log);
    assert s.word == Pack(s.Hot(), s.Started());
  }

  /**
   Flushing refines observing: once at rest, a histogram into which a batch was flushed has the same word
   and the same shards as one in which the values of the batch were observed one by one.
   */
  lemma FlushRefinesObserving(flushed: State, observed: State, before: seq<Writer>, batch: Writer, singles: seq<Writer>)
    requires Inv(flushed) && FewObservations(flushed) && AtRest(flushed)
    requires Inv(observed) && FewObservations(observed) && AtRest(observed)
    requires flushed.bounds == observed.bounds && flushed.Hot() == observed.Hot()
    requires flushed.log == before + [batch]
    requires observed.log == before + singles
    requires |singles| == |batch.values|
    requires forall i :: 0 <= i < |singles| ==> singles[i].values == [batch.values[i]]
    ensures (flushed.word, flushed.first, flushed.second) == (observed.word, observed.first, observed.second)
  {
    ObservationsConcat(before, [batch]);
    assert Observations([batch]) == batch.values by { assert [batch][..0] == []; }
    ObservationsConcat(before, singles);
    SinglesObserve(singles, batch.values);
    RestContents(flushed);
    RestContents(observed);
  }

  lemma {:induction false} SinglesObserve(singles: seq<Writer>, values: seq<real>)
    requires |singles| == |values| && forall i :: 0 <= i < |singles| ==> singles[i].values == [values[i]]
    ensures Observations(singles) == values
  {
    if singles != [] {
      SinglesObserve(singles[..|singles| - 1], values[..|values| - 1]);
    }
  }

  // ---- sample_count and sample_sum ------------------------------------------------------------------------

  /** The sums of the writes that are past their sum step. */
  ghost function SumsPast(log: seq<Writer>): real {
    if log == [] then 0.0
    else
      var w := log[|log| - 1];
      SumsPast(log[..|log| - 1]) + (if w.pc.AtCount? || w.pc.Done? then JobSum(w.job) else 0.0)
  }

  lemma {:induction false} AppliedSums(bounds: seq<F64>, log: seq<Writer>)
    requires LogFits(bounds, log)
    ensures AppliedTotal(bounds, log).sum == SumsPast(log)
  {
    if log != [] {
      var w := log[|log| - 1];
      AppliedSums(bounds, log[..|log| - 1]);
      assert AppliedAll(bounds, log)[..|log| - 1] == AppliedAll(bounds, log[..|log| - 1]);
      assert w.job.Observe? ==> Sum([w.job.v]) == w.job.v by {
        if w.job.Observe? { assert [w.job.v][..0] == []; }
      }
    }
  }

  /** `sample_sum` reads the sum of the observations past their sum step, whichever shard is hot. */
  lemma SampleSumReads(s: State)
    requires Inv(s) && FewObservations(s) && s.lock.ReadAt?
    ensures Next(s, ReadSum).lock == ReadValue(SumsPast(s.log))
  {
    AppliedSums(s.bounds, s.log);
  }

  /** `sample_count`, the low part of the packed word, counts every observation that has begun. */
  lemma SampleCountReads(s: State)
    requires Inv(s) && FewObservations(s)
    ensures s.Started() == |Observations(s.log)|
  {
    IssuedIsContribution(s.bounds, s.log);
  }
}
