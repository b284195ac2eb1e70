/** The exposed data: metric families and the metrics in them. */
module Model {
  import opened Floats

  datatype LabelPair = LabelPair(name: string, value: string)

  datatype Quantile = Quantile(quantile: F64, value: F64)

  datatype Summary = Summary(sampleCount: nat, sampleSum: F64, quantile: seq<Quantile>)

  datatype Bucket = Bucket(cumulativeCount: nat, upperBound: F64)

  datatype Histogram = Histogram(sampleCount: nat, sampleSum: F64, bucket: seq<Bucket>)

  datatype Metric = Metric(
    labels: seq<LabelPair>,
    gauge: F64,
    counter: F64,
    summary: Summary,
    untyped: F64,
    histogram: Histogram,
    timestampMs: int)

  datatype MetricType = COUNTER | GAUGE | SUMMARY | UNTYPED | HISTOGRAM

  datatype MetricFamily = MetricFamily(name: string, help: string, fieldType: MetricType, metric: seq<Metric>)
}
