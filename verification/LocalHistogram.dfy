/** The unsynchronised histogram of one thread, which buffers observations and flushes them as one batch. */
module LocalHistogram {
  import opened Floats
  import opened Integers
  import opened PackedWord
  import opened PlainHistogram
  import opened Tallies
  import opened HistogramProtocol
  import opened HistogramInvariant
  import opened HistogramCalls
  import H = HistogramCore

  lemma ContributionOfOne(bounds: seq<F64>, vs: seq<real>, v: real)
    ensures var (old', new') := (Contribution(bounds, vs), Contribution(bounds, vs + [v]));
      && new'.count == old'.count + 1
      && new'.sum == old'.sum + v
      && (forall i :: 0 <= i < |bounds| ==>
           new'.buckets[i] == old'.buckets[i] + (if FindBucket(bounds, v) == i then 1 else 0))
  {
    assert (vs + [v])[..|vs|] == vs;
  }

  /** A histogram that nobody touches stays valid. */
  twostate lemma StaysValid(histogram: H.HistogramCore)
    requires old(histogram.Valid())
    requires unchanged(histogram) && unchanged(histogram.shardAndCount) && unchanged(histogram.first)
    requires unchanged(histogram.first.buckets) && unchanged(histogram.second) && unchanged(histogram.second.buckets)
    ensures histogram.Valid()
  {
    assert histogram.View() == old(histogram.View());
  }

  lemma NothingContributed(bounds: seq<F64>, counts: seq<nat>)
    requires |counts| == |bounds| && forall i :: 0 <= i < |counts| ==> counts[i] == 0
    ensures Tally(0, 0.0, counts) == Contribution(bounds, [])
  {
    assert counts == Contribution(bounds, []).buckets;
  }

  class LocalHistogramCore {
    const histogram: H.HistogramCore
    const counts: array<u64>
    var count: u64
    var sum: real
    ghost var buffered: seq<real>   // the values observed since the last flush or clear

    ghost predicate Valid()
      reads this, counts, histogram, histogram.Repr()
    {
      && histogram.Valid()
      && this !in histogram.Repr() && counts !in histogram.Repr()
      && counts.Length == |histogram.upperBounds|
      && Buffers(buffered)
    }

    /** The counts, the count and the sum are those of the buffered values. */
    ghost predicate Buffers(values: seq<real>)
      reads this, counts
    {
      Tally(count, sum, counts[..]) == Contribution(histogram.upperBounds, values)
    }

    constructor (histogram: H.HistogramCore)
      requires histogram.Valid()
      ensures Valid() && this.histogram == histogram && buffered == []
      ensures fresh(counts)
    {
      this.histogram := histogram;
      counts := new u64[|histogram.upperBounds|](i => 0);
      count, sum, buffered := 0, 0.0, [];
      new;
      NothingContributed(histogram.upperBounds, counts[..]);
      StaysValid(histogram);
    }

    method Observe(v: real)
      requires Valid() && |buffered| + 1 < TWO63
      modifies this, counts
      ensures Valid() && buffered == old(buffered) + [v]
    {
      Buffer(v);
    }

    method Buffer(v: real)
      requires counts.Length == |histogram.upperBounds| && Buffers(buffered) && |buffered| + 1 < TWO63
      modifies this, counts
      ensures Buffers(buffered) && buffered == old(buffered) + [v]
    {
      ContributionOfOne(histogram.upperBounds, buffered, v);
      var i := SearchBucket(histogram.upperBounds, v);
      if i < |histogram.upperBounds| {
        CountInBounded(histogram.upperBounds, buffered, i);
        assert counts[i] == counts[..][i] == CountIn(histogram.upperBounds, buffered, i);
        counts[i] := counts[i] + 1;
      }
      count := count + 1;
      sum := sum + v;
      buffered := buffered + [v];
      assert counts[..] == Contribution(histogram.upperBounds, buffered).buckets;
    }

    method Clear()
      requires Valid()
      modifies this, counts
      ensures Valid() && buffered == []
    {
      Empty();
    }

    method Empty()
      requires counts.Length == |histogram.upperBounds|
      modifies this, counts
      ensures Buffers([]) && buffered == []
    {
      for i := 0 to counts.Length
        invariant forall j :: 0 <= j < i ==> counts[j] == 0
      {
        counts[i] := 0;
      }
      count := 0;
      sum := 0.0;
      buffered := [];
      assert counts[..] == Contribution(histogram.upperBounds, []).buckets;
    }

    /**
     Flushes the batch through the protocol of `observe`: nothing at all when nothing is buffered, and one
     write that stands for exactly the buffered values otherwise.
     */
    method Flush()
      requires Valid() && Begun(histogram.View()) + |buffered| < TWO63
      modifies this, counts, histogram.shardAndCount, histogram.first, histogram.first.buckets
      modifies histogram.second, histogram.second.buckets, histogram`threads, histogram`observed
      ensures Valid() && buffered == []
      ensures histogram.View().log == old(histogram.View()).log
              + Batch(old(histogram.View()).Hot(), old(counts[..]), old(count), old(sum), old(buffered))
      ensures FewObservations(histogram.View())
    {
      if count == 0 {
        assert buffered == [];
        return;
      }
      histogram.BeginAndFinish(Job.Flush(counts[..], count, sum), buffered);
      Clear();
    }
  }

  /** What a flush appends to the log of the shared histogram. */
  function Batch(hot: ShardIndex, counts: seq<nat>, count: nat, sum: real, values: seq<real>): seq<Writer> {
    if values == [] then [] else [Writer(hot, Job.Flush(counts, count, sum), values, Done)]
  }
}
