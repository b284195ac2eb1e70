/** Facts about single states that whole calls rest on: a collect on its way, and what has begun. */
module HistogramCalls {
  import opened Integers
  import opened Floats
  import opened PackedWord
  import opened PlainHistogram
  import opened HistogramProtocol
  import opened HistogramInvariant
  import opened HistogramSteps
  import opened HistogramTheorems
  import opened HistogramProgress

  // ---- How much has begun ------------------------------------------------------------------------------

  /** The number of observations that have begun. */
  ghost function Begun(s: State): nat
    requires LogFits(s.bounds, s.log)
  {
    IssuedTotal(s.bounds, s.log).count
  }

  /** Only a `fetch_add` changes what has begun. */
  lemma BegunStays(s: State, a: Action)
    requires Inv(s) && Enabled(s, a) && Wellformed(Next(s, a))
    ensures Begun(Next(s, a)) == Begun(s) + if a.Begin? then JobCount(a.job) else 0
  {
    match a
    case Begin(job, values) =>
      TotalsAppend(s.bounds, s.log, Writer(s.Hot(), job, values, FirstPc(s.bounds, job)));
    case Write(id, spurious) =>
      var w := s.log[id];
      var pc := WriterEffect(s.bounds, w, s.Shard(w.shard), spurious).1;
      DeltaAdvances(s.bounds, w, s.Shard(w.shard), spurious);
      TotalsUpdate(s.bounds, s.log, id, w.(pc := pc), Delta(s.bounds, w, pc));
    case _ =>
  }

  /** The observations that these actions begin. */
  function Load(schedule: seq<Action>): nat {
    if schedule == [] then 0 else Load(schedule[1..]) + if schedule[0].Begin? then JobCount(schedule[0].job) else 0
  }

  /** Writers and the collector's own steps; every write that begins stands for some observations. */
  ghost predicate Runnable(bounds: seq<F64>, schedule: seq<Action>) {
    forall i :: 0 <= i < |schedule| ==>
      && (schedule[i].Begin? || schedule[i].Write? || schedule[i].CollectStep?)
      && (schedule[i].Begin? ==> Startable(bounds, schedule[i]))
  }

  lemma RunnableTail(bounds: seq<F64>, schedule: seq<Action>)
    requires Runnable(bounds, schedule) && schedule != []
    ensures Runnable(bounds, schedule[1..]) && Runnable(bounds, [schedule[0]])
    ensures Load(schedule) == Load(schedule[1..]) + if schedule[0].Begin? then JobCount(schedule[0].job) else 0
  {
  }

  ghost predicate Startable(bounds: seq<F64>, a: Action)
    requires a.Begin?
  {
    JobFits(bounds, a.job, a.values) && Fitting(bounds, Writer(First, a.job, a.values, FirstPc(bounds, a.job)))
  }

  /** A step of a writer moves only its own place in the log, and takes it nearer to its end. */
  lemma WriterAlone(s: State, id: nat)
    requires Inv(s) && id < |s.log| && !s.log[id].pc.Done?
    ensures var s' := StepWriter(s, id, false);
            && s'.log == s.log[id := s'.log[id]] && s'.log[id] == s.log[id].(pc := s'.log[id].pc)
            && Wellformed(s') && Fitting(s.bounds, s'.log[id])
            && (Left(s.bounds, s'.log[id]) < Left(s.bounds, s.log[id])
                || (Left(s.bounds, s'.log[id]) == Left(s.bounds, s.log[id])
                    && Retry(s'.log[id], s'.Shard(s.log[id].shard).sum) < Retry(s.log[id], s.Shard(s.log[id].shard).sum)))
  {
    WriteKeepsShapes(s, id, false);
    assert Fitting(s.bounds, s.log[id]) && Fitting(s.bounds, StepWriter(s, id, false).log[id]);
  }

  // ---- A collect on its way --------------------------------------------------------------------------------

  /** Collect number `m`, which flipped when `n` writes had begun, is under way or has just returned. */
  ghost predicate CollectAt(s: State, m: nat, n: nat) {
    || (s.lock.Collecting? && s.lock.c.at == n && |s.collected| == m)
    || (s.lock.Free? && |s.collected| == m + 1 && s.collected[m].at == n)
  }

  lemma StepKeepsCollect(s: State, a: Action, m: nat, n: nat)
    requires Shapes(s) && Enabled(s, a) && (a.Begin? || a.Write? || a.CollectStep?) && CollectAt(s, m, n)
    ensures CollectAt(Next(s, a), m, n)
  {
  }

  /** Since `before`, when it flipped, the log has only grown, and the given load can still be begun. */
  ghost predicate OnItsWay(before: State, s: State, m: nat, load: nat)
    requires LogFits(s.bounds, s.log)
  {
    CollectAt(s, m, |before.log|) && LogExtends(before, s) && Begun(s) + load < TWO63
  }

  lemma StepOnItsWay(before: State, s: State, a: Action, m: nat, load: nat)
    requires Inv(s) && Enabled(s, a) && (a.Begin? || a.Write? || a.CollectStep?) && Wellformed(Next(s, a))
    requires OnItsWay(before, s, m, (if a.Begin? then JobCount(a.job) else 0) + load)
    ensures OnItsWay(before, Next(s, a), m, load)
  {
    BegunStays(s, a);
    StepKeepsCollect(s, a, m, |before.log|);
    StepExtendsLog(s, a);
    LogExtendsTransitive(before, s, Next(s, a));
  }

  /** When all writers have come to their end, nothing else has changed. */
  lemma FinishedOnItsWay(before: State, s: State, s': State, m: nat)
    requires Wellformed(s) && Wellformed(s') && OnItsWay(before, s, m, 0)
    requires s'.log == Finished(s.log) && Begun(s') == Begun(s) && s'.lock == s.lock && s'.collected == s.collected
    ensures OnItsWay(before, s', m, 0) && AllDone(s'.log)
    ensures AllDone(s.log) ==> s'.log == s.log
  {
  }

  /** When it has returned, it has reported the log as it was when it flipped. */
  lemma CollectReports(before: State, s: State, m: nat)
    requires Inv(s) && OnItsWay(before, s, m, 0) && s.lock.Free? && AllDone(s.log)
    ensures FewObservations(s) && AtRest(s) && LogExtends(before, s) && |s.collected| == m + 1
    ensures s.collected[m].snapshot == Plain(s.bounds, Observations(before.log))
  {
    assert Truthful(s.bounds, s.log, s.collected[m]);
    assert before.log[..|before.log|] == before.log;
    ObservationsSame(s.log[..|before.log|], before.log);
  }

  // ---- Writers that have come to their end ---------------------------------------------------------------------

  function Finished(log: seq<Writer>): (done: seq<Writer>)
    ensures |done| == |log| && forall i :: 0 <= i < |log| ==> done[i] == log[i].(pc := Done)
  {
    seq(|log|, i requires 0 <= i < |log| => log[i].(pc := Done))
  }

  /** The first `k` writers have come to their end. */
  function FinishedUpTo(log: seq<Writer>, k: nat): seq<Writer>
    requires k <= |log|
  {
    Finished(log[..k]) + log[k..]
  }

  lemma FinishedNext(log: seq<Writer>, k: nat)
    requires k < |log|
    ensures var now := FinishedUpTo(log, k);
            |now| == |log| && now[k := now[k].(pc := Done)] == FinishedUpTo(log, k + 1)
  {
  }

  lemma FinishedNone(log: seq<Writer>)
    ensures FinishedUpTo(log, 0) == log && FinishedUpTo(log, |log|) == Finished(log)
  {
    assert log[..0] == [] && log[..|log|] == log && log[|log|..] == [];
  }

  ghost predicate AllDone(log: seq<Writer>) {
    forall i :: 0 <= i < |log| ==> log[i].pc.Done?
  }

  /** The collector's steps from `s` on, until it has returned. */
  ghost predicate CollectorPath(s: State, states: seq<State>) {
    && states != [] && states[0] == s && states[|states| - 1].lock.Free?
    && forall k :: 0 <= k < |states| - 1 ==> CollectorTurn(states[k], states[k + 1])
  }

  ghost predicate CollectorTurn(s: State, s': State) {
    Shapes(s) && s.lock.Collecting? && s' == StepCollect(s, false)
  }

  /** With all writers done, the collector comes to its end. */
  lemma {:induction false} CollectorEnds(before: State, s: State, m: nat) returns (states: seq<State>)
    requires Inv(s) && AllDone(s.log) && OnItsWay(before, s, m, 0)
    ensures CollectorPath(s, states)
    ensures var end := states[|states| - 1]; end.log == s.log && Wellformed(end) && OnItsWay(before, end, m, 0)
    decreases if s.lock.Collecting? then PhasesLeft(s) + 1 else 0
  {
    if s.lock.Free? {
      states := [s];
    } else {
      var next := QuietCollectorProgresses(before, s, m);
      states := CollectorEnds(before, next, m);
      PathFrom(s, next, states);
      states := [s] + states;
    }
  }

  /** A path goes on as long as the collector does. */
  lemma NothingLeft(s: State, states: seq<State>, k: nat)
    requires states != [] && CollectorPath(states[0], states) && k < |states| && s == states[k]
    requires !s.lock.Collecting?
    ensures k == |states| - 1
  {
    assert k < |states| - 1 ==> CollectorTurn(states[k], states[k + 1]);
  }

  lemma PathFrom(s: State, next: State, states: seq<State>)
    requires CollectorTurn(s, next) && CollectorPath(next, states)
    ensures CollectorPath(s, [s] + states)
  {
    var longer := [s] + states;
    forall k | 0 <= k < |longer| - 1 ensures CollectorTurn(longer[k], longer[k + 1]) {
      if k > 0 {
        assert CollectorTurn(states[k - 1], states[k]);
      }
    }
  }

  lemma QuietCollectorProgresses(before: State, s: State, m: nat) returns (next: State)
    requires Inv(s) && s.lock.Collecting? && AllDone(s.log) && OnItsWay(before, s, m, 0)
    ensures CollectorTurn(s, next) && Inv(next) && PhasesLeft(next) < PhasesLeft(s)
    ensures next.log == s.log && OnItsWay(before, next, m, 0)
  {
    next := StepCollect(s, false);
    CollectorProgresses(s);
    StepKeepsInv(s, CollectStep(false));
    StepOnItsWay(before, s, CollectStep(false), m, 0);
  }
}
