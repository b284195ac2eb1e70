/**
 The two-shard histogram as a state machine: one action per atomic operation, any number of writing
 threads, and one holder of the collect lock at a time.

 A writer is known by the position its `fetch_add` on the packed word took: `log` lists every write that
 has begun, in that order, with the program counter of the thread that runs it.
 */
module HistogramProtocol {
  import opened Floats
  import opened Integers
  import opened PackedWord
  import opened PlainHistogram
  import opened Tallies

  /** What a writer carries: `observe` a value, `flush` the buffered bucket counts, count and sum. */
  datatype Job = Observe(v: real) | Flush(counts: seq<nat>, count: nat, sum: real)

  datatype Pc =
    | AtBucket(next: nat)        // about to increment a bucket
    | AtSumLoad                  // about to load the sum in the compare-and-swap loop
    | AtSumCas(expected: real)   // about to compare-and-swap the sum
    | AtCount                    // about to increment the shard's count
    | Done

  /** One write.  `values` are the observations it stands for. */
  datatype Writer = Writer(shard: ShardIndex, job: Job, values: seq<real>, pc: Pc)

  /** The local variables of `proto` once the shards are flipped. */
  datatype Collect = Collect(began: nat, at: nat, cold: ShardIndex, overall: nat, sum: real, cumulative: nat, rows: seq<Row>)

  datatype Phase =
    | Spin                          // compare-and-swap the cold count with the overall count
    | SwapSum
    | SwapBucket(i: nat)
    | MergeBucket(i: nat, taken: nat)
    | MergeCount
    | LoadHotSum
    | CasHotSum(expected: real)
    | Release

  /** Who holds the collect lock: `proto` before and after its flip, or `sample_sum`. */
  datatype Lock =
    | Free
    | Entered(began: nat)
    | Collecting(c: Collect, phase: Phase)
    | ReadEntered
    | ReadAt(shard: ShardIndex)
    | ReadValue(sum: real)

  /** A finished collect: the length of the log when it took the lock, when it flipped, when it released. */
  datatype Collected = Collected(began: nat, at: nat, ended: nat, snapshot: Snapshot)

  datatype State = State(
    bounds: seq<F64>,
    word: u64,
    first: Tally,
    second: Tally,
    log: seq<Writer>,
    lock: Lock,
    collected: seq<Collected>)
  {
    function Hot(): ShardIndex { Split(word).0 }

    function Started(): nat { Split(word).1 }

    function Shard(i: ShardIndex): Tally { if i.First? then first else second }

    function WithShard(i: ShardIndex, t: Tally): State {
      if i.First? then this.(first := t) else this.(second := t)
    }
  }

  function Init(bounds: seq<F64>): State {
    State(bounds, 0, Zero(|bounds|), Zero(|bounds|), [], Free, [])
  }

  // ---- Writers --------------------------------------------------------------------------------------------

  /** What a job adds to its shard in all. */
  function JobTally(bounds: seq<F64>, job: Job): Tally {
    match job
    case Observe(v) => Contribution(bounds, [v])
    case Flush(counts, count, sum) => Tally(count, sum, counts)
  }

  function JobCount(job: Job): nat {
    if job.Observe? then 1 else job.count
  }

  function JobSum(job: Job): real {
    if job.Observe? then job.v else job.sum
  }

  /** The job stands for these observations; a flush of nothing is never begun. */
  ghost predicate JobFits(bounds: seq<F64>, job: Job, values: seq<real>) {
    && values != []
    && JobTally(bounds, job) == Contribution(bounds, values)
    && (job.Observe? ==> values == [job.v])
  }

  function FirstPc(bounds: seq<F64>, job: Job): Pc {
    if job.Flush? && bounds == [] then AtSumLoad else AtBucket(0)
  }

  predicate PcFits(bounds: seq<F64>, job: Job, pc: Pc) {
    pc.AtBucket? ==> if job.Observe? then pc.next == 0 else pc.next < |bounds|
  }

  function AddToBucket(t: Tally, i: nat, n: u64): Tally
    requires i < |t.buckets| && t.buckets[i] < TWO64
  {
    t.(buckets := t.buckets[i := WrappingAdd(t.buckets[i], n)])
  }

  function AddToCount(t: Tally, n: u64): Tally
    requires t.count < TWO64
  {
    t.(count := WrappingAdd(t.count, n))
  }

  // ---- Actions --------------------------------------------------------------------------------------------

  datatype Action =
    | Begin(job: Job, values: seq<real>)    // fetch_add on the packed word
    | Write(id: nat, spurious: bool)        // the next atomic operation of writer `id`
    | TakeLock
    | Flip
    | CollectStep(spurious: bool)           // the next atomic operation of `proto` after its flip
    | TakeReadLock
    | ReadHot
    | ReadSum
    | DropReadLock

  /** The shards have the right shape and hold 64-bit numbers. */
  predicate Shard64(n: nat, t: Tally) {
    && |t.buckets| == n
    && t.count < TWO64
    && (forall i :: 0 <= i < n ==> t.buckets[i] < TWO64)
  }

  predicate Shapes(s: State) {
    && Shard64(|s.bounds|, s.first)
    && Shard64(|s.bounds|, s.second)
    && (forall i :: 0 <= i < |s.log| ==> Fitting(s.bounds, s.log[i]))
    && LockFits(s)
  }

  predicate Fitting(bounds: seq<F64>, w: Writer) {
    && (w.job.Flush? ==> |w.job.counts| == |bounds|)
    && JobCount(w.job) < TWO64
    && (w.job.Flush? ==> forall i :: 0 <= i < |bounds| ==> w.job.counts[i] < TWO64)
    && PcFits(bounds, w.job, w.pc)
  }

  predicate LockFits(s: State) {
    s.lock.Collecting? ==> CollectFits(s.bounds, s.lock.c, s.lock.phase)
  }

  predicate CollectFits(bounds: seq<F64>, c: Collect, phase: Phase) {
    && c.overall < TWO64
    && c.cumulative < TWO64
    && (phase.SwapBucket? ==> phase.i <= |bounds|)
    && (phase.MergeBucket? ==> phase.i < |bounds| && phase.taken < TWO64)
  }

  ghost predicate Enabled(s: State, a: Action)
    requires Shapes(s)
  {
    match a
    case Begin(job, values) =>
      JobFits(s.bounds, job, values) && Fitting(s.bounds, Writer(First, job, values, FirstPc(s.bounds, job)))
    case Write(id, _) => id < |s.log| && !s.log[id].pc.Done?
    case TakeLock => s.lock.Free?
    case Flip => s.lock.Entered?
    case CollectStep(_) => s.lock.Collecting?
    case TakeReadLock => s.lock.Free?
    case ReadHot => s.lock.ReadEntered?
    case ReadSum => s.lock.ReadAt?
    case DropReadLock => s.lock.ReadValue?
  }

  ghost function Next(s: State, a: Action): State
    requires Shapes(s) && Enabled(s, a)
  {
    match a
    case Begin(job, values) => BeginWrite(s, job, values)
    case Write(id, spurious) => StepWriter(s, id, spurious)
    case TakeLock => s.(lock := Entered(|s.log|))
    case Flip => FlipShards(s)
    case CollectStep(spurious) => StepCollect(s, spurious)
    case TakeReadLock => s.(lock := ReadEntered)
    case ReadHot => s.(lock := ReadAt(s.Hot()))
    case ReadSum => s.(lock := ReadValue(s.Shard(s.lock.shard).sum))
    case DropReadLock => s.(lock := Free)
  }

  function BeginWrite(s: State, job: Job, values: seq<real>): State
    requires JobCount(job) < TWO64
  {
    s.(word := Apply(s.word, IncBy(JobCount(job))),
       log := s.log + [Writer(s.Hot(), job, values, FirstPc(s.bounds, job))])
  }

  /** The next operation of writer `id`: the shard it touches and the program counter it reaches. */
  function StepWriter(s: State, id: nat, spurious: bool): State
    requires Shapes(s) && id < |s.log| && !s.log[id].pc.Done?
  {
    var w := s.log[id];
    var (t, pc) := WriterEffect(s.bounds, w, s.Shard(w.shard), spurious);
    s.WithShard(w.shard, t).(log := s.log[id := w.(pc := pc)])
  }

  function WriterEffect(bounds: seq<F64>, w: Writer, t: Tally, spurious: bool): (Tally, Pc)
    requires Shard64(|bounds|, t) && Fitting(bounds, w) && !w.pc.Done?
  {
    match w.pc
    case AtBucket(k) =>
      (match w.job
       case Observe(v) =>
         var i := FindBucket(bounds, v);
         (if i < |bounds| then AddToBucket(t, i, 1) else t, AtSumLoad)
       case Flush(counts, _, _) =>
         (if counts[k] > 0 then AddToBucket(t, k, counts[k]) else t,
          if k + 1 < |bounds| then AtBucket(k + 1) else AtSumLoad))
    case AtSumLoad => (t, AtSumCas(t.sum))
    case AtSumCas(expected) =>
      if !spurious && t.sum == expected then (t.(sum := expected + JobSum(w.job)), AtCount) else (t, AtSumLoad)
    case AtCount => (AddToCount(t, JobCount(w.job)), Done)
  }

  /** The flip: the overall count is what the packed word held just before. */
  function FlipShards(s: State): State
    requires s.lock.Entered?
  {
    var (cold, overall) := Split(s.word);
    s.(word := Apply(s.word, Op.Flip),
       lock := Collecting(Collect(s.lock.began, |s.log|, cold, overall, 0.0, 0, []), Spin))
  }

  /** The next operation of `proto`: its local variables, its phase, and the cold and hot shards. */
  function CollectorEffect(bounds: seq<F64>, c: Collect, phase: Phase, cold: Tally, hot: Tally, spurious: bool)
    : (Collect, Phase, Tally, Tally)
    requires Shard64(|bounds|, cold) && Shard64(|bounds|, hot)
    requires CollectFits(bounds, c, phase) && !phase.Release?
  {
    match phase
    case Spin =>
      if !spurious && cold.count == c.overall then (c, SwapSum, cold.(count := 0), hot) else (c, Spin, cold, hot)
    case SwapSum => (c.(sum := cold.sum), SwapBucket(0), cold.(sum := 0.0), hot)
    case SwapBucket(i) =>
      if i == |bounds| then (c, MergeCount, cold, hot)
      else (c, MergeBucket(i, cold.buckets[i]), cold.(buckets := cold.buckets[i := 0]), hot)
    case MergeBucket(i, taken) =>
      var cumulative := WrappingAdd(c.cumulative, taken);
      (c.(cumulative := cumulative, rows := c.rows + [Row(cumulative, bounds[i])]), SwapBucket(i + 1),
       cold, AddToBucket(hot, i, taken))
    case MergeCount => (c, LoadHotSum, cold, AddToCount(hot, c.overall))
    case LoadHotSum => (c, CasHotSum(hot.sum), cold, hot)
    case CasHotSum(expected) =>
      if !spurious && hot.sum == expected then (c, Release, cold, hot.(sum := expected + c.sum))
      else (c, LoadHotSum, cold, hot)
  }

  function StepCollect(s: State, spurious: bool): State
    requires Shapes(s) && s.lock.Collecting?
  {
    var c, phase := s.lock.c, s.lock.phase;
    if phase.Release? then
      s.(lock := Free,
         collected := s.collected + [Collected(c.began, c.at, |s.log|, Snapshot(c.overall, c.sum, c.rows))])
    else
      var (c', phase', cold, hot) :=
        CollectorEffect(s.bounds, c, phase, s.Shard(c.cold), s.Shard(c.cold.Inverse()), spurious);
      s.WithShard(c.cold, cold).WithShard(c.cold.Inverse(), hot).(lock := Collecting(c', phase'))
  }

  // ---- Runs -----------------------------------------------------------------------------------------------

  /** A run: the states that a list of actions goes through, starting from an empty histogram. */
  ghost predicate IsRun(bounds: seq<F64>, states: seq<State>, actions: seq<Action>) {
    && |states| == |actions| + 1
    && states[0] == Init(bounds)
    && (forall i :: 0 <= i < |actions| ==> IsStep(states[i], actions[i], states[i + 1]))
  }

  ghost predicate IsStep(s: State, a: Action, s': State) {
    Shapes(s) && Enabled(s, a) && s' == Next(s, a)
  }

  /** The observations whose `fetch_add` is in this part of the log. */
  ghost function Observations(log: seq<Writer>): seq<real> {
    if log == [] then [] else Observations(log[..|log| - 1]) + log[|log| - 1].values
  }
}
