/** Reading the bytes of a message rebuilds the message. */
module ProtoRoundTrip {
  import opened Integers
  import opened Wrappers
  import opened Utf8
  import opened Wire
  import opened ProtoModel

  /** The codec reads back what it wrote for this message, provided it is not too long. */
  ghost predicate Faithful<M>(codec: Codec<M>, m: M) {
    |codec.bytes(m)| < TWO32 ==> codec.parse(codec.bytes(m)) == Some(m)
  }

  // ---- Messages of scalars --------------------------------------------------------------------------------

  lemma LabelRoundTrip(m: LabelPair)
    ensures Faithful(LABEL_CODEC, m)
  {
    if |LabelBytes(m)| < TWO32 {
      var ms, ss := [EMPTY_LABEL, LabelPair(m.name, None), m], LabelSections(m);
      forall k | 0 <= k < 2 ensures ApplyAll(ApplyLabel, ms[k], ss[k]) == Some(ms[k + 1]) {
        if ss[k] != [] {
          RoundTrip(if k == 0 then m.name.value else m.value.value);
          ApplyOne(ApplyLabel, ms[k], ss[k][0]);
        }
      }
      SectionsMerge(ApplyLabel, ms, ss);
    }
  }

  lemma NumberRoundTrip(m: Number)
    ensures Faithful(NUMBER_CODEC, m)
  {
    if |NumberBytes(m)| < TWO32 {
      var ms, ss := [EMPTY_NUMBER, m], NumberSections(m);
      if ss[0] != [] {
        ApplyOne(ApplyNumber, ms[0], ss[0][0]);
      }
      SectionsMerge(ApplyNumber, ms, ss);
    }
  }

  function QuantileUpTo(m: Quantile, k: nat): Quantile {
    Quantile(if k > 0 then m.quantile else None, if k > 1 then m.value else None)
  }

  lemma QuantileSection(m: Quantile, k: nat)
    requires k < 2
    ensures ApplyAll(ApplyQuantile, QuantileUpTo(m, k), QuantileSections(m)[k]) == Some(QuantileUpTo(m, k + 1))
  {
    if QuantileSections(m)[k] != [] {
      ApplyOne(ApplyQuantile, QuantileUpTo(m, k), QuantileSections(m)[k][0]);
    }
  }

  lemma QuantileRoundTrip(m: Quantile)
    ensures Faithful(QUANTILE_CODEC, m)
  {
    if |QuantileBytes(m)| < TWO32 {
      var ms, ss := [EMPTY_QUANTILE, QuantileUpTo(m, 1), m], QuantileSections(m);
      QuantileSection(m, 0);
      QuantileSection(m, 1);
      SectionsMerge(ApplyQuantile, ms, ss);
    }
  }

  function BucketUpTo(m: Bucket, k: nat): Bucket {
    Bucket(if k > 0 then m.cumulativeCount else None, if k > 1 then m.upperBound else None)
  }

  lemma BucketSection(m: Bucket, k: nat)
    requires k < 2
    ensures ApplyAll(ApplyBucket, BucketUpTo(m, k), BucketSections(m)[k]) == Some(BucketUpTo(m, k + 1))
  {
    if BucketSections(m)[k] != [] {
      ApplyOne(ApplyBucket, BucketUpTo(m, k), BucketSections(m)[k][0]);
    }
  }

  lemma BucketRoundTrip(m: Bucket)
    ensures Faithful(BUCKET_CODEC, m)
  {
    if |BucketBytes(m)| < TWO32 {
      var ms, ss := [EMPTY_BUCKET, BucketUpTo(m, 1), m], BucketSections(m);
      BucketSection(m, 0);
      BucketSection(m, 1);
      SectionsMerge(ApplyBucket, ms, ss);
    }
  }

  // ---- Messages with a repeated part ----------------------------------------------------------------------

  lemma QuantilesRoundTrip(codec: Codec<Quantile>, m: Summary, xs: seq<Quantile>)
    requires forall i :: 0 <= i < |xs| ==> codec.parse(codec.bytes(xs[i])) == Some(xs[i])
    ensures ApplyAll(SummaryReader(codec), m, RepeatedField(3, xs, codec)) == Some(m.(quantile := m.quantile + xs))
  {
    var ms := seq(|xs| + 1, i requires 0 <= i <= |xs| => m.(quantile := m.quantile + xs[..i]));
    forall i | 0 <= i < |xs| ensures SummaryReader(codec)(ms[i], RepeatedField(3, xs, codec)[i]) == Some(ms[i + 1]) {
      assert m.quantile + xs[..i] + [xs[i]] == m.quantile + xs[..i + 1];
    }
    ApplyChain(SummaryReader(codec), ms, RepeatedField(3, xs, codec));
    assert m.quantile + xs[..0] == m.quantile && xs[..|xs|] == xs;
  }

  lemma SummarySection(codec: Codec<Quantile>, m: Summary, k: nat)
    requires k < 3 && AllWritable(SummarySections(codec, m)[k])
    requires forall i :: 0 <= i < |m.quantile| ==> Faithful(codec, m.quantile[i])
    ensures ApplyAll(SummaryReader(codec), SummaryUpTo(m, k), SummarySections(codec, m)[k]) == Some(SummaryUpTo(m, k + 1))
  {
    var fs := SummarySections(codec, m)[k];
    if k == 2 {
      QuantilesRoundTrip(codec, SummaryUpTo(m, k), m.quantile);
      assert [] + m.quantile == m.quantile;
    } else if fs != [] {
      ApplyOne(SummaryReader(codec), SummaryUpTo(m, k), fs[0]);
    }
  }

  /** The message with the first `k` sections read. */
  function SummaryUpTo(m: Summary, k: nat): Summary {
    Summary(if k > 0 then m.sampleCount else None, if k > 1 then m.sampleSum else None, if k > 2 then m.quantile else [])
  }

  lemma SummaryRoundTripWith(codec: Codec<Quantile>, m: Summary)
    requires forall i :: 0 <= i < |m.quantile| ==> Faithful(codec, m.quantile[i])
    requires |EncodeFields(Flatten(SummarySections(codec, m)))| < TWO32
    ensures MergeBytes(SummaryReader(codec), EMPTY_SUMMARY, EncodeFields(Flatten(SummarySections(codec, m)))) == Some(m)
  {
    var ms, ss := seq(4, k requires 0 <= k < 4 => SummaryUpTo(m, k)), SummarySections(codec, m);
    forall k | 0 <= k < 3 && AllWritable(ss[k]) ensures ApplyAll(SummaryReader(codec), ms[k], ss[k]) == Some(ms[k + 1]) {
      SummarySection(codec, m, k);
    }
    SectionsMerge(SummaryReader(codec), ms, ss);
  }

  lemma SummaryRoundTrip(m: Summary)
    ensures Faithful(SUMMARY_CODEC, m)
  {
    if |SummaryBytes(m)| < TWO32 {
      forall i | 0 <= i < |m.quantile| ensures Faithful(QUANTILE_CODEC, m.quantile[i]) {
        QuantileRoundTrip(m.quantile[i]);
      }
      SummaryRoundTripWith(QUANTILE_CODEC, m);
    }
  }

  lemma BucketsRoundTrip(codec: Codec<Bucket>, m: Histogram, xs: seq<Bucket>)
    requires forall i :: 0 <= i < |xs| ==> codec.parse(codec.bytes(xs[i])) == Some(xs[i])
    ensures ApplyAll(HistogramReader(codec), m, RepeatedField(3, xs, codec)) == Some(m.(bucket := m.bucket + xs))
  {
    var ms := seq(|xs| + 1, i requires 0 <= i <= |xs| => m.(bucket := m.bucket + xs[..i]));
    forall i | 0 <= i < |xs| ensures HistogramReader(codec)(ms[i], RepeatedField(3, xs, codec)[i]) == Some(ms[i + 1]) {
      assert m.bucket + xs[..i] + [xs[i]] == m.bucket + xs[..i + 1];
    }
    ApplyChain(HistogramReader(codec), ms, RepeatedField(3, xs, codec));
    assert m.bucket + xs[..0] == m.bucket && xs[..|xs|] == xs;
  }

  lemma HistogramSection(codec: Codec<Bucket>, m: Histogram, k: nat)
    requires k < 3 && AllWritable(HistogramSections(codec, m)[k])
    requires forall i :: 0 <= i < |m.bucket| ==> Faithful(codec, m.bucket[i])
    ensures ApplyAll(HistogramReader(codec), HistogramUpTo(m, k), HistogramSections(codec, m)[k])
         == Some(HistogramUpTo(m, k + 1))
  {
    var fs := HistogramSections(codec, m)[k];
    if k == 2 {
      BucketsRoundTrip(codec, HistogramUpTo(m, k), m.bucket);
      assert [] + m.bucket == m.bucket;
    } else if fs != [] {
      ApplyOne(HistogramReader(codec), HistogramUpTo(m, k), fs[0]);
    }
  }

  /** The message with the first `k` sections read. */
  function HistogramUpTo(m: Histogram, k: nat): Histogram {
    Histogram(if k > 0 then m.sampleCount else None, if k > 1 then m.sampleSum else None, if k > 2 then m.bucket else [])
  }

  lemma HistogramRoundTripWith(codec: Codec<Bucket>, m: Histogram)
    requires forall i :: 0 <= i < |m.bucket| ==> Faithful(codec, m.bucket[i])
    requires |EncodeFields(Flatten(HistogramSections(codec, m)))| < TWO32
    ensures MergeBytes(HistogramReader(codec), EMPTY_HISTOGRAM, EncodeFields(Flatten(HistogramSections(codec, m))))
         == Some(m)
  {
    var ms, ss := seq(4, k requires 0 <= k < 4 => HistogramUpTo(m, k)), HistogramSections(codec, m);
    forall k | 0 <= k < 3 && AllWritable(ss[k]) ensures ApplyAll(HistogramReader(codec), ms[k], ss[k]) == Some(ms[k + 1]) {
      HistogramSection(codec, m, k);
    }
    SectionsMerge(HistogramReader(codec), ms, ss);
  }

  lemma HistogramRoundTrip(m: Histogram)
    ensures Faithful(HISTOGRAM_CODEC, m)
  {
    if |HistogramBytes(m)| < TWO32 {
      forall i | 0 <= i < |m.bucket| ensures Faithful(BUCKET_CODEC, m.bucket[i]) {
        BucketRoundTrip(m.bucket[i]);
      }
      HistogramRoundTripWith(BUCKET_CODEC, m);
    }
  }

  // ---- Metrics --------------------------------------------------------------------------------------------

  lemma LabelsRoundTrip(parts: Parts, m: Metric, xs: seq<LabelPair>)
    requires forall i :: 0 <= i < |xs| ==> parts.labels.parse(parts.labels.bytes(xs[i])) == Some(xs[i])
    ensures ApplyAll(MetricReader(parts), m, RepeatedField(1, xs, parts.labels)) == Some(m.(labels := m.labels + xs))
  {
    var fs := RepeatedField(1, xs, parts.labels);
    var ms := seq(|xs| + 1, i requires 0 <= i <= |xs| => m.(labels := m.labels + xs[..i]));
    forall i | 0 <= i < |xs| ensures MetricReader(parts)(ms[i], fs[i]) == Some(ms[i + 1]) {
      assert m.labels + xs[..i] + [xs[i]] == m.labels + xs[..i + 1];
    }
    ApplyChain(MetricReader(parts), ms, fs);
    assert m.labels + xs[..0] == m.labels && xs[..|xs|] == xs;
  }

  /** The parts of a metric are read back by their codecs. */
  ghost predicate PartsFaithful(parts: Parts, m: Metric) {
    && (forall i :: 0 <= i < |m.labels| ==> Faithful(parts.labels, m.labels[i]))
    && (m.gauge.Some? ==> Faithful(parts.numbers, m.gauge.value))
    && (m.counter.Some? ==> Faithful(parts.numbers, m.counter.value))
    && (m.summary.Some? ==> Faithful(parts.summaries, m.summary.value))
    && (m.untyped.Some? ==> Faithful(parts.numbers, m.untyped.value))
    && (m.histogram.Some? ==> Faithful(parts.histograms, m.histogram.value))
  }

  /** The metric with the first `k` sections read, the others still absent. */
  function MetricUpTo(m: Metric, k: nat): Metric {
    Metric(if k > 0 then m.labels else [],
           if k > 1 then m.gauge else None,
           if k > 2 then m.counter else None,
           if k > 3 then m.summary else None,
           if k > 4 then m.untyped else None,
           if k > 5 then m.histogram else None,
           if k > 6 then m.timestampMs else None)
  }

  lemma PartRoundTrip(parts: Parts, m: Metric, k: nat)
    requires 0 < k < 7 && PartsFaithful(parts, m)
    requires MetricSections(parts, m)[k] != [] && Writable(MetricSections(parts, m)[k][0])
    ensures ApplyMetric(parts, MetricUpTo(m, k), MetricSections(parts, m)[k][0]) == Some(MetricUpTo(m, k + 1))
  {
  }

  lemma MetricSection(parts: Parts, m: Metric, k: nat)
    requires k < 7 && PartsFaithful(parts, m) && AllWritable(MetricSections(parts, m)[k])
    ensures ApplyAll(MetricReader(parts), MetricUpTo(m, k), MetricSections(parts, m)[k]) == Some(MetricUpTo(m, k + 1))
  {
    var fs := MetricSections(parts, m)[k];
    if k == 0 {
      LabelsRoundTrip(parts, MetricUpTo(m, 0), m.labels);
      assert [] + m.labels == m.labels;
    } else if fs != [] {
      assert Writable(fs[0]);
      PartRoundTrip(parts, m, k);
      ApplyOne(MetricReader(parts), MetricUpTo(m, k), fs[0]);
    }
  }

  lemma MetricRoundTripWith(parts: Parts, m: Metric)
    requires PartsFaithful(parts, m)
    requires |EncodeFields(Flatten(MetricSections(parts, m)))| < TWO32
    ensures MergeBytes(MetricReader(parts), EMPTY_METRIC, EncodeFields(Flatten(MetricSections(parts, m)))) == Some(m)
  {
    var ms, ss := seq(8, k requires 0 <= k < 8 => MetricUpTo(m, k)), MetricSections(parts, m);
    forall k | 0 <= k < 7 && AllWritable(ss[k]) ensures ApplyAll(MetricReader(parts), ms[k], ss[k]) == Some(ms[k + 1]) {
      MetricSection(parts, m, k);
    }
    SectionsMerge(MetricReader(parts), ms, ss);
  }

  lemma MetricPartsFaithful(m: Metric)
    ensures PartsFaithful(METRIC_PARTS, m)
  {
    forall i | 0 <= i < |m.labels| ensures Faithful(LABEL_CODEC, m.labels[i]) {
      LabelRoundTrip(m.labels[i]);
    }
    if m.gauge.Some? { NumberRoundTrip(m.gauge.value); }
    if m.counter.Some? { NumberRoundTrip(m.counter.value); }
    if m.summary.Some? { SummaryRoundTrip(m.summary.value); }
    if m.untyped.Some? { NumberRoundTrip(m.untyped.value); }
    if m.histogram.Some? { HistogramRoundTrip(m.histogram.value); }
  }

  lemma MetricRoundTrip(m: Metric)
    ensures Faithful(METRIC_CODEC, m)
  {
    if |MetricBytes(m)| < TWO32 {
      MetricPartsFaithful(m);
      MetricRoundTripWith(METRIC_PARTS, m);
    }
  }
  // ---- Families -------------------------------------------------------------------------------------------

  lemma MetricsRoundTrip(codec: Codec<Metric>, m: MetricFamily, xs: seq<Metric>)
    requires forall i :: 0 <= i < |xs| ==> codec.parse(codec.bytes(xs[i])) == Some(xs[i])
    ensures ApplyAll(FamilyReader(codec), m, RepeatedField(4, xs, codec)) == Some(m.(metric := m.metric + xs))
  {
    var fs := RepeatedField(4, xs, codec);
    var ms := seq(|xs| + 1, i requires 0 <= i <= |xs| => m.(metric := m.metric + xs[..i]));
    forall i | 0 <= i < |xs| ensures FamilyReader(codec)(ms[i], fs[i]) == Some(ms[i + 1]) {
      assert m.metric + xs[..i] + [xs[i]] == m.metric + xs[..i + 1];
    }
    ApplyChain(FamilyReader(codec), ms, fs);
    assert m.metric + xs[..0] == m.metric && xs[..|xs|] == xs;
  }

  function FamilyUpTo(m: MetricFamily, k: nat): MetricFamily {
    MetricFamily(if k > 0 then m.name else None, if k > 1 then m.help else None,
                 if k > 2 then m.fieldType else None, if k > 3 then m.metric else [])
  }

  lemma FamilySection(codec: Codec<Metric>, m: MetricFamily, k: nat)
    requires k < 4 && AllWritable(FamilySections(codec, m)[k])
    requires forall i :: 0 <= i < |m.metric| ==> Faithful(codec, m.metric[i])
    ensures ApplyAll(FamilyReader(codec), FamilyUpTo(m, k), FamilySections(codec, m)[k]) == Some(FamilyUpTo(m, k + 1))
  {
    var fs := FamilySections(codec, m)[k];
    if k == 3 {
      MetricsRoundTrip(codec, FamilyUpTo(m, k), m.metric);
      assert [] + m.metric == m.metric;
    } else if fs != [] {
      if k < 2 {
        RoundTrip(if k == 0 then m.name.value else m.help.value);
      }
      ApplyOne(FamilyReader(codec), FamilyUpTo(m, k), fs[0]);
    }
  }

  lemma FamilyRoundTripWith(codec: Codec<Metric>, m: MetricFamily)
    requires forall i :: 0 <= i < |m.metric| ==> Faithful(codec, m.metric[i])
    requires |EncodeFields(Flatten(FamilySections(codec, m)))| < TWO32
    ensures MergeBytes(FamilyReader(codec), EMPTY_FAMILY, EncodeFields(Flatten(FamilySections(codec, m)))) == Some(m)
  {
    var ms, ss := seq(5, k requires 0 <= k < 5 => FamilyUpTo(m, k)), FamilySections(codec, m);
    forall k | 0 <= k < 4 && AllWritable(ss[k]) ensures ApplyAll(FamilyReader(codec), ms[k], ss[k]) == Some(ms[k + 1]) {
      FamilySection(codec, m, k);
    }
    SectionsMerge(FamilyReader(codec), ms, ss);
  }

  /** Every metric family, with all its nested messages and absent fields, is rebuilt from its bytes. */
  lemma FamilyRoundTrip(m: MetricFamily)
    requires |FamilyBytes(m)| < TWO32
    ensures ParseFamily(FamilyBytes(m)) == Some(m)
  {
    forall i | 0 <= i < |m.metric| ensures Faithful(METRIC_CODEC, m.metric[i]) {
      MetricRoundTrip(m.metric[i]);
    }
    FamilyRoundTripWith(METRIC_CODEC, m);
  }

  function Familiar(number: nat): bool {
    1 <= number <= 4
  }

  /** What a newer program adds to a family under other numbers makes no difference to the rest. */
  lemma NewerFieldsPassedOver(m: MetricFamily, fs: seq<Field>)
    requires AllWritable(fs)
    ensures MergeBytes(FamilyReader(METRIC_CODEC), m, EncodeFields(fs))
         == ApplyAll(FamilyReader(METRIC_CODEC), m, Known(Familiar, fs))
  {
    MergeEncoded(FamilyReader(METRIC_CODEC), m, fs);
    ReaderPassesOver(METRIC_CODEC, m, fs);
  }

  lemma ReaderPassesOver(codec: Codec<Metric>, m: MetricFamily, fs: seq<Field>)
    ensures ApplyAll(FamilyReader(codec), m, fs) == ApplyAll(FamilyReader(codec), m, Known(Familiar, fs))
  {
    PassesOver(FamilyReader(codec), Familiar, m, fs);
  }
}
