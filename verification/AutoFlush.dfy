/** Local counters that flush themselves: every increment is followed by a try to flush. */
module AutoFlush {
  import opened Integers
  import opened CoarseClock
  import opened LocalCounters
  import opened LocalHistogram
  import opened HistogramProtocol
  import opened HistogramCalls

  /** The root that holds a thread's local counter; `now` is what `RECENT` reads when flushing is tried. */
  class AFLocalCounter {
    const local: GenericLocalCounter
    const interval: u64
    var lastFlush: u64

    constructor (local: GenericLocalCounter, interval: u64, lastFlush: u64)
      ensures this.local == local && this.interval == interval && this.lastFlush == lastFlush
    {
      this.local, this.interval, this.lastFlush := local, interval, lastFlush;
    }

    method TryFlush(now: u64)
      modifies this, local, local.counter
      ensures local.Total() == old(local.Total())
      ensures if Due(Root(old(lastFlush), interval), now)
              then local.val == 0 && local.counter.value == old(local.Total()) && lastFlush == now
              else local.val == old(local.val) && local.counter.value == old(local.counter.value)
                   && lastFlush == old(lastFlush)
    {
      if now < WrappingAdd(lastFlush, interval) {
        return;
      }
      local.Flush();
      lastFlush := now;
    }

    /** The total grows by the amount; it is all in the shared counter when a flush is due, and else still here. */
    method IncBy(v: u64, now: u64)
      modifies this, local, local.counter
      ensures local.Total() == WrappingAdd(old(local.Total()), v)
      ensures if Due(Root(old(lastFlush), interval), now)
              then local.val == 0 && local.counter.value == local.Total() && lastFlush == now
              else local.val == WrappingAdd(old(local.val), v) && local.counter.value == old(local.counter.value)
                   && lastFlush == old(lastFlush)
    {
      local.IncBy(v);
      TryFlush(now);
    }
  }

  /** The same for a histogram: what is observed is buffered, and flushed as one batch when it is due. */
  class AFLocalHistogram {
    const local: LocalHistogramCore
    const interval: u64
    var lastFlush: u64

    constructor (local: LocalHistogramCore, interval: u64, lastFlush: u64)
      ensures this.local == local && this.interval == interval && this.lastFlush == lastFlush
    {
      this.local, this.interval, this.lastFlush := local, interval, lastFlush;
    }

    method TryFlush(now: u64)
      requires local.Valid() && Begun(local.histogram.View()) + |local.buffered| < TWO63
      requires this !in local.histogram.Repr()
      modifies this, local, local.counts, local.histogram.shardAndCount, local.histogram.first
      modifies local.histogram.first.buckets, local.histogram.second, local.histogram.second.buckets
      modifies local.histogram`threads, local.histogram`observed
      ensures local.Valid()
      ensures var (before, after) := (old(local.histogram.View().log), local.histogram.View().log);
              if Due(Root(old(lastFlush), interval), now)
              then local.buffered == [] && lastFlush == now && Appended(before, after, old(local.buffered))
              else local.buffered == old(local.buffered) && lastFlush == old(lastFlush) && after == before
    {
      if now < WrappingAdd(lastFlush, interval) {
        return;
      }
      local.Flush();
      lastFlush := now;
    }

    method Observe(v: real, now: u64)
      requires local.Valid() && Begun(local.histogram.View()) + |local.buffered| + 1 < TWO63
      requires this !in local.histogram.Repr()
      modifies this, local, local.counts, local.histogram.shardAndCount, local.histogram.first
      modifies local.histogram.first.buckets, local.histogram.second, local.histogram.second.buckets
      modifies local.histogram`threads, local.histogram`observed
      ensures local.Valid()
      ensures var (before, after) := (old(local.histogram.View().log), local.histogram.View().log);
              if Due(Root(old(lastFlush), interval), now)
              then local.buffered == [] && lastFlush == now && Appended(before, after, old(local.buffered) + [v])
              else local.buffered == old(local.buffered) + [v] && lastFlush == old(lastFlush) && after == before
    {
      local.Observe(v);
      TryFlush(now);
    }
  }

  /** One finished write that stands for these values, or none if there are none. */
  predicate Appended(before: seq<Writer>, after: seq<Writer>, values: seq<real>) {
    if values == [] then after == before
    else
      && |after| == |before| + 1 && after[..|before|] == before
      && after[|before|].values == values && after[|before|].pc.Done?
  }
}
