/**
 The histogram as it lives in memory: two shards with bucket arrays, the packed word and the collect lock.
 Each method up to `StepCollect` is one atomic operation, tied to one action of the protocol; any thread may
 run any other of them in between.
 */
module HistogramCore {
  import opened Floats
  import opened Integers
  import opened PackedWord
  import opened PlainHistogram
  import opened Tallies
  import opened HistogramProtocol
  import opened HistogramInvariant
  import opened HistogramSteps
  import opened HistogramTheorems
  import opened HistogramProgress
  import opened HistogramCalls

  class Shard {
    var sum: real
    var count: u64
    const buckets: array<u64>

    ghost function View(): (t: Tally)
      reads this, buckets
      ensures Shard64(buckets.Length, t)
    {
      Tally(count, sum, buckets[..])
    }

    constructor (n: nat)
      ensures fresh(buckets) && buckets.Length == n
      ensures View() == Zero(n)
    {
      sum, count := 0.0, 0;
      buckets := new u64[n](i => 0);
      new;
      assert buckets[..] == Zero(n).buckets;
    }

    method IncBucket(i: nat, n: u64)
      requires i < buckets.Length
      modifies buckets
      ensures View() == AddToBucket(old(View()), i, n)
    {
      buckets[i] := WrappingAdd(buckets[i], n);
    }

    method SwapBucket(i: nat, n: u64) returns (before: u64)
      requires i < buckets.Length
      modifies buckets
      ensures before == old(View()).buckets[i]
      ensures View() == old(View()).(buckets := old(View()).buckets[i := n])
    {
      before := buckets[i];
      buckets[i] := n;
    }

    method IncCount(n: u64)
      modifies this
      ensures View() == AddToCount(old(View()), n)
    {
      count := WrappingAdd(count, n);
    }

    method CasCount(current: u64, next: u64, spurious: bool) returns (ok: bool)
      modifies this
      ensures ok <==> !spurious && old(View()).count == current
      ensures View() == if ok then old(View()).(count := next) else old(View())
    {
      ok := !spurious && count == current;
      if ok {
        count := next;
      }
    }

    method SwapSum(v: real) returns (before: real)
      modifies this
      ensures before == old(View()).sum && View() == old(View()).(sum := v)
    {
      before := sum;
      sum := v;
    }

    method CasSum(current: real, next: real, spurious: bool) returns (ok: bool)
      modifies this
      ensures ok <==> !spurious && old(View()).sum == current
      ensures View() == if ok then old(View()).(sum := next) else old(View())
    {
      ok := !spurious && sum == current;
      if ok {
        sum := next;
      }
    }
  }

  /** The stack of a writing thread: the shard it was sent to, its job, and where it is. */
  datatype Thread = Thread(shard: ShardIndex, job: Job, pc: Pc)

  ghost function Log(threads: seq<Thread>, observed: seq<seq<real>>): (log: seq<Writer>)
    requires |threads| == |observed|
    ensures |log| == |threads|
  {
    seq(|threads|, i requires 0 <= i < |threads| =>
      Writer(threads[i].shard, threads[i].job, observed[i], threads[i].pc))
  }

  class HistogramCore {
    const upperBounds: seq<F64>
    const shardAndCount: ShardAndCount
    const first: Shard
    const second: Shard
    var collectLock: Lock
    var threads: seq<Thread>             // every thread that has begun to write, in the order of its fetch_add
    var collected: seq<Collected>        // what finished collects returned
    ghost var observed: seq<seq<real>>   // the observations each thread stands for

    ghost function Repr(): set<object> {
      {this, shardAndCount, first, first.buckets, second, second.buckets}
    }

    ghost predicate Valid()
      reads this, Repr()
    {
      Separate() && Inv(View())
    }

    /** The parts are different objects of the right size. */
    ghost predicate Separate()
      reads this
    {
      && first != second && first.buckets != second.buckets
      && first.buckets.Length == second.buckets.Length == |upperBounds|
      && |threads| == |observed|
    }

    ghost function View(): State
      requires |threads| == |observed|
      reads this, Repr()
    {
      State(upperBounds, shardAndCount.inner, first.View(), second.View(), Log(threads, observed), collectLock, collected)
    }

    constructor (bounds: seq<F64>)
      requires Increasing(bounds)
      ensures Valid() && fresh(Repr())
      ensures View() == Init(bounds)
    {
      upperBounds := bounds;
      shardAndCount := new ShardAndCount();
      first := new Shard(|bounds|);
      second := new Shard(|bounds|);
      collectLock := Free;
      threads, observed := [], [];
      collected := [];
      new;
      InitInv(bounds);
    }

    function At(i: ShardIndex): Shard {
      if i.First? then first else second
    }

    // ---- Writers: one atomic operation each -------------------------------------------------------------

    /** The `fetch_add` that begins `observe` or `flush`. */
    method Begin(job: Job, ghost values: seq<real>) returns (id: nat)
      requires Valid() && Enabled(View(), Action.Begin(job, values))
      modifies shardAndCount, this`threads, this`observed
      ensures Valid() && id == |old(threads)|
      ensures View() == Next(old(View()), Action.Begin(job, values))
    {
      StepKeepsInv(View(), Action.Begin(job, values));
      id := AddWriter(job, values);
    }

    method AddWriter(job: Job, ghost values: seq<real>) returns (id: nat)
      requires Separate() && JobCount(job) < TWO64
      modifies shardAndCount, this`threads, this`observed
      ensures Separate() && id == |old(threads)|
      ensures View() == BeginWrite(old(View()), job, values)
    {
      var before := shardAndCount.IncBy(JobCount(job));
      id := |threads|;
      threads := threads + [Thread(before.0, job, FirstPc(upperBounds, job))];
      observed := observed + [values];
      assert View().log == old(View()).log + [Writer(before.0, job, values, FirstPc(upperBounds, job))];
    }

    /** The next atomic operation of thread `id`. */
    method StepWrite(id: nat, spurious: bool)
      requires Valid() && id < |threads| && !threads[id].pc.Done?
      modifies first, first.buckets, second, second.buckets, this`threads
      ensures Valid() && |threads| == |old(threads)|
      ensures View() == Next(old(View()), Write(id, spurious))
    {
      StepKeepsInv(View(), Write(id, spurious));
      MoveWriter(id, spurious);
    }

    method MoveWriter(id: nat, spurious: bool)
      requires Separate() && Shapes(View()) && id < |threads| && !threads[id].pc.Done?
      modifies first, first.buckets, second, second.buckets, this`threads
      ensures Separate() && |threads| == |old(threads)|
      ensures View() == StepWriter(old(View()), id, spurious)
    {
      ghost var s, w := View(), View().log[id];
      assert Fitting(upperBounds, w);
      var t := threads[id];
      var shard := At(t.shard);
      var pc := WriteOn(shard, t, spurious);
      assert (shard.View(), pc) == WriterEffect(s.bounds, w, s.Shard(w.shard), spurious);
      assert At(t.shard.Inverse()).View() == s.Shard(w.shard.Inverse());
      threads := threads[id := t.(pc := pc)];
      assert View().log == s.log[id := w.(pc := pc)];
    }

    method WriteOn(shard: Shard, t: Thread, spurious: bool) returns (pc: Pc)
      requires shard.buckets.Length == |upperBounds| && !t.pc.Done?
      requires Fitting(upperBounds, Writer(t.shard, t.job, [], t.pc))
      modifies shard, shard.buckets
      ensures (shard.View(), pc) == WriterEffect(upperBounds, Writer(t.shard, t.job, [], t.pc), old(shard.View()), spurious)
    {
      match t.pc {
        case AtBucket(k) =>
          pc := AtSumLoad;
          match t.job {
            case Observe(v) =>
              var i := SearchBucket(upperBounds, v);
              if i < |upperBounds| {
                shard.IncBucket(i, 1);
              }
            case Flush(counts, _, _) =>
              if counts[k] > 0 {
                shard.IncBucket(k, counts[k]);
              }
              if k + 1 < |upperBounds| {
                pc := AtBucket(k + 1);
              }
          }
        case AtSumLoad =>
          pc := AtSumCas(shard.sum);
        case AtSumCas(expected) =>
          var ok := shard.CasSum(expected, expected + JobSum(t.job), spurious);
          pc := if ok then AtCount else AtSumLoad;
        case AtCount =>
          shard.IncCount(JobCount(t.job));
          pc := Done;
      }
    }

    // ---- The collector: one atomic operation each -----------------------------------------------------------

    method TakeLock()
      requires Valid() && collectLock.Free?
      modifies this`collectLock
      ensures Valid() && View() == Next(old(View()), Action.TakeLock)
    {
      StepKeepsInv(View(), Action.TakeLock);
      collectLock := Entered(|threads|);
    }

    method Flip()
      requires Valid() && collectLock.Entered?
      modifies shardAndCount, this`collectLock
      ensures Valid() && View() == Next(old(View()), Action.Flip)
    {
      StepKeepsInv(View(), Action.Flip);
      var before := shardAndCount.Flip();
      collectLock := Collecting(Collect(collectLock.began, |threads|, before.0, before.1, 0.0, 0, []), Spin);
    }

    method StepCollect(spurious: bool)
      requires Valid() && collectLock.Collecting?
      modifies first, first.buckets, second, second.buckets, this`collectLock, this`collected
      ensures Valid() && View() == Next(old(View()), CollectStep(spurious))
    {
      StepKeepsInv(View(), CollectStep(spurious));
      MoveCollector(spurious);
    }

    method MoveCollector(spurious: bool)
      requires Separate() && Shapes(View()) && collectLock.Collecting?
      modifies first, first.buckets, second, second.buckets, this`collectLock, this`collected
      ensures Separate() && View() == HistogramProtocol.StepCollect(old(View()), spurious)
    {
      var c, phase := collectLock.c, collectLock.phase;
      if phase.Release? {
        collected := collected + [Collected(c.began, c.at, |threads|, Snapshot(c.overall, c.sum, c.rows))];
        collectLock := Free;
      } else {
        var c', phase' := CollectOn(At(c.cold), At(c.cold.Inverse()), c, phase, spurious);
        collectLock := Collecting(c', phase');
      }
    }

    method CollectOn(cold: Shard, hot: Shard, c: Collect, phase: Phase, spurious: bool) returns (c': Collect, phase': Phase)
      requires cold != hot && cold.buckets != hot.buckets
      requires cold.buckets.Length == hot.buckets.Length == |upperBounds|
      requires CollectFits(upperBounds, c, phase) && !phase.Release?
      modifies cold, cold.buckets, hot, hot.buckets
      ensures (c', phase', cold.View(), hot.View())
           == CollectorEffect(upperBounds, c, phase, old(cold.View()), old(hot.View()), spurious)
    {
      c', phase' := c, phase;
      match phase {
        case Spin =>
          var ok := cold.CasCount(c.overall, 0, spurious);
          phase' := if ok then SwapSum else Spin;
        case SwapSum =>
          var sum := cold.SwapSum(0.0);
          c', phase' := c.(sum := sum), SwapBucket(0);
        case SwapBucket(i) =>
          if i == |upperBounds| {
            phase' := MergeCount;
          } else {
            var taken := cold.SwapBucket(i, 0);
            phase' := MergeBucket(i, taken);
          }
        case MergeBucket(i, taken) =>
          hot.IncBucket(i, taken);
          var cumulative := WrappingAdd(c.cumulative, taken);
          c' := c.(cumulative := cumulative, rows := c.rows + [Row(cumulative, upperBounds[i])]);
          phase' := SwapBucket(i + 1);
        case MergeCount =>
          hot.IncCount(c.overall);
          phase' := LoadHotSum;
        case LoadHotSum =>
          phase' := CasHotSum(hot.sum);
        case CasHotSum(expected) =>
          var ok := hot.CasSum(expected, expected + c.sum, spurious);
          phase' := if ok then Release else LoadHotSum;
      }
    }

    // ---- sample_sum and sample_count --------------------------------------------------------------------------

    method TakeReadLock()
      requires Valid() && collectLock.Free?
      modifies this`collectLock
      ensures Valid() && View() == Next(old(View()), Action.TakeReadLock)
    {
      StepKeepsInv(View(), Action.TakeReadLock);
      collectLock := ReadEntered;
    }

    method ReadHot()
      requires Valid() && collectLock.ReadEntered?
      modifies this`collectLock
      ensures Valid() && View() == Next(old(View()), Action.ReadHot)
    {
      StepKeepsInv(View(), Action.ReadHot);
      var now := shardAndCount.Get();
      collectLock := ReadAt(now.0);
    }

    method ReadSum()
      requires Valid() && collectLock.ReadAt?
      modifies this`collectLock
      ensures Valid() && View() == Next(old(View()), Action.ReadSum)
    {
      StepKeepsInv(View(), Action.ReadSum);
      var sum := At(collectLock.shard).sum;
      collectLock := ReadValue(sum);
    }

    method DropReadLock() returns (sum: real)
      requires Valid() && collectLock.ReadValue?
      modifies this`collectLock
      ensures Valid() && View() == Next(old(View()), Action.DropReadLock)
      ensures sum == old(collectLock).sum
    {
      StepKeepsInv(View(), Action.DropReadLock);
      sum := collectLock.sum;
      collectLock := Free;
    }

    // ---- Whole calls ------------------------------------------------------------------------------------------

    /** Thread `id` runs to its end: its operations in order, with the compare-and-swap loop of the sum. */
    method Finish(id: nat)
      requires Valid() && id < |threads|
      modifies first, first.buckets, second, second.buckets, this`threads
      ensures Valid() && |threads| == |old(threads)|
      ensures View().log == old(View()).log[id := old(View()).log[id].(pc := Done)]
      ensures Begun(View()) == old(Begun(View()))
    {
      while !threads[id].pc.Done?
        invariant Valid() && |threads| == |old(threads)|
        invariant View().log == old(View()).log[id := old(View()).log[id].(pc := threads[id].pc)]
        invariant Begun(View()) == old(Begun(View()))
        decreases Left(upperBounds, View().log[id]), Retry(View().log[id], View().Shard(View().log[id].shard).sum)
      {
        ghost var s := View();
        WriterAlone(s, id);
        StepWrite(id, false);
        BegunStays(s, Write(id, false));
      }
    }

    /** `observe`, run without interruption. */
    method Observe(v: real)
      requires Valid() && Begun(View()) + 1 < TWO63
      modifies shardAndCount, first, first.buckets, second, second.buckets, this`threads, this`observed
      ensures Valid() && FewObservations(View())
      ensures View().log == old(View()).log + [Writer(old(View()).Hot(), Job.Observe(v), [v], Done)]
    {
      assert JobFits(upperBounds, Job.Observe(v), [v]);
      BeginAndFinish(Job.Observe(v), [v]);
    }

    /** One write from its `fetch_add` to its end. */
    method BeginAndFinish(job: Job, ghost values: seq<real>)
      requires Valid() && Enabled(View(), Action.Begin(job, values)) && Begun(View()) + JobCount(job) < TWO63
      modifies shardAndCount, first, first.buckets, second, second.buckets, this`threads, this`observed
      ensures Valid() && FewObservations(View())
      ensures View().log == old(View()).log + [Writer(old(View()).Hot(), job, values, Done)]
    {
      ghost var s := View();
      var id := Begin(job, values);
      BegunStays(s, Action.Begin(job, values));
      Finish(id);
    }

    /** One action of a writer or of the collector, if it can be taken. */
    method Take(a: Action)
      requires Valid() && (a.Begin? || a.Write? || a.CollectStep?) && (a.Begin? ==> Startable(upperBounds, a))
      modifies shardAndCount, first, first.buckets, second, second.buckets
      modifies this`threads, this`observed, this`collectLock, this`collected
      ensures Valid()
      ensures if Enabled(old(View()), a) then View() == Next(old(View()), a) else View() == old(View())
    {
      match a {
        case Begin(job, values) => var id := Begin(job, values);
        case Write(id, spurious) =>
          if id < |threads| && !threads[id].pc.Done? {
            StepWrite(id, spurious);
          }
        case CollectStep(spurious) =>
          if collectLock.Collecting? {
            StepCollect(spurious);
          }
      }
    }

    /**
     A collect amid others.  After its flip, writers go on and begin as the schedule says, with the collector's
     own steps in between; then every writer and the collector run to their ends.  Whatever the schedule is,
     the collect reports the plain histogram of what had begun when it was called.
     */
    method Proto(schedule: seq<Action>) returns (h: Snapshot)
      requires Valid() && collectLock.Free?
      requires Runnable(upperBounds, schedule) && Begun(View()) + Load(schedule) < TWO63
      modifies shardAndCount, first, first.buckets, second, second.buckets
      modifies this`threads, this`observed, this`collectLock, this`collected
      ensures Valid() && FewObservations(View()) && AtRest(View())
      ensures LogExtends(old(View()), View())
      ensures schedule == [] && old(AtRest(View())) ==> View().log == old(View()).log
      ensures h == Plain(upperBounds, Observations(old(View()).log))
    {
      ghost var s, m := View(), |collected|;
      BeginCollect();
      if schedule != [] {
        RunSchedule(schedule, s, m);
      }
      h := EndCollect(s, m);
    }

    method FinishWriters(ghost s: State, ghost m: nat)
      requires Valid() && OnItsWay(s, View(), m, 0)
      modifies first, first.buckets, second, second.buckets, this`threads
      ensures Valid() && OnItsWay(s, View(), m, 0) && AllDone(View().log)
      ensures old(AllDone(View().log)) ==> View().log == old(View()).log
    {
      ghost var now := View();
      FinishAll();
      FinishedOnItsWay(s, now, View(), m);
    }

    /** Every writer, and then the collector, runs to its end. */
    method EndCollect(ghost s: State, ghost m: nat) returns (h: Snapshot)
      requires Valid() && OnItsWay(s, View(), m, 0)
      modifies first, first.buckets, second, second.buckets, this`threads, this`collectLock, this`collected
      ensures Valid() && FewObservations(View()) && AtRest(View()) && LogExtends(s, View())
      ensures old(AllDone(View().log)) ==> View().log == old(View()).log
      ensures h == Plain(upperBounds, Observations(s.log))
    {
      FinishWriters(s, m);
      ghost var states := CollectorEnds(s, View(), m);
      FinishCollect(states);
      CollectReports(s, View(), m);
      h := collected[|collected| - 1].snapshot;
    }

    /** The lock, and the flip. */
    method BeginCollect()
      requires Valid() && collectLock.Free?
      modifies shardAndCount, this`collectLock
      ensures Valid() && CollectAt(View(), |collected|, |View().log|)
      ensures View().log == old(View()).log
    {
      TakeLock();
      Flip();
    }

    method RunSchedule(schedule: seq<Action>, ghost s: State, ghost m: nat)
      requires Valid() && Runnable(upperBounds, schedule) && OnItsWay(s, View(), m, Load(schedule))
      modifies shardAndCount, first, first.buckets, second, second.buckets
      modifies this`threads, this`observed, this`collectLock, this`collected
      ensures Valid() && OnItsWay(s, View(), m, 0)
      decreases |schedule|
    {
      if schedule != [] {
        RunnableTail(upperBounds, schedule);
        TakeOne(schedule[0], s, m, Load(schedule[1..]));
        RunSchedule(schedule[1..], s, m);
      }
    }

    method TakeOne(a: Action, ghost s: State, ghost m: nat, ghost load: nat)
      requires Valid() && (a.Begin? || a.Write? || a.CollectStep?) && (a.Begin? ==> Startable(upperBounds, a))
      requires OnItsWay(s, View(), m, (if a.Begin? then JobCount(a.job) else 0) + load)
      modifies shardAndCount, first, first.buckets, second, second.buckets
      modifies this`threads, this`observed, this`collectLock, this`collected
      ensures Valid() && OnItsWay(s, View(), m, load)
    {
      ghost var now := View();
      Take(a);
      if Enabled(now, a) {
        StepOnItsWay(s, now, a, m, load);
      }
    }

    /** Every thread runs to its end. */
    method FinishAll()
      requires Valid()
      modifies first, first.buckets, second, second.buckets, this`threads
      ensures Valid() && View().log == Finished(old(View()).log)
      ensures Begun(View()) == old(Begun(View()))
    {
      ghost var log := View().log;
      FinishedNone(log);
      for id := 0 to |threads|
        invariant Valid() && |threads| == |log| && Begun(View()) == old(Begun(View()))
        invariant View().log == FinishedUpTo(log, id)
      {
        FinishedNext(log, id);
        Finish(id);
      }
    }

    /** The collector runs to its release: the spin, the drain of the cold shard, the merge into the hot one. */
    method FinishCollect(ghost states: seq<State>)
      requires Valid() && CollectorPath(View(), states)
      modifies first, first.buckets, second, second.buckets, this`collectLock, this`collected
      ensures Valid() && View() == states[|states| - 1]
    {
      ghost var k := 0;
      while collectLock.Collecting?
        invariant k < |states| && Valid() && View() == states[k]
        decreases |states| - k
      {
        Turn(states[k], states[k + 1]);
        k := k + 1;
      }
      NothingLeft(View(), states, k);
    }

    method Turn(ghost now: State, ghost next: State)
      requires Valid() && View() == now && CollectorTurn(now, next)
      modifies first, first.buckets, second, second.buckets, this`collectLock, this`collected
      ensures Valid() && View() == next
    {
      StepCollect(false);
    }
  }
}
