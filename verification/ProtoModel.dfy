/**
 The protobuf messages of the metric data, the fields each is written as, and what reading a field does.
 Doubles are their 64-bit patterns.  `Gauge`, `Counter` and `Untyped` have the same one field.
 */
module ProtoModel {
  import opened Integers
  import opened Wrappers
  import opened Utf8
  import opened Wire

  type i64 = n: int | -0x8000_0000_0000_0000 <= n < 0x8000_0000_0000_0000

  datatype LabelPair = LabelPair(name: Option<string>, value: Option<string>)

  datatype Number = Number(value: Option<u64>)

  datatype Quantile = Quantile(quantile: Option<u64>, value: Option<u64>)

  datatype Summary = Summary(sampleCount: Option<u64>, sampleSum: Option<u64>, quantile: seq<Quantile>)

  datatype Bucket = Bucket(cumulativeCount: Option<u64>, upperBound: Option<u64>)

  datatype Histogram = Histogram(sampleCount: Option<u64>, sampleSum: Option<u64>, bucket: seq<Bucket>)

  datatype Metric = Metric(
    labels: seq<LabelPair>,
    gauge: Option<Number>,
    counter: Option<Number>,
    summary: Option<Summary>,
    untyped: Option<Number>,
    histogram: Option<Histogram>,
    timestampMs: Option<i64>)

  datatype MetricType = COUNTER | GAUGE | SUMMARY | UNTYPED | HISTOGRAM

  datatype MetricFamily = MetricFamily(
    name: Option<string>,
    help: Option<string>,
    fieldType: Option<MetricType>,
    metric: seq<Metric>)

  // ---- Scalars --------------------------------------------------------------------------------------------

  function TypeValue(t: MetricType): u64 {
    match t
    case COUNTER => 0
    case GAUGE => 1
    case SUMMARY => 2
    case UNTYPED => 3
    case HISTOGRAM => 4
  }

  /** The type with this value, of which 32 bits are read; other values are passed over. */
  function TypeFrom(n: u64): Option<MetricType> {
    var i := n % TWO32;
    if i == 0 then Some(COUNTER)
    else if i == 1 then Some(GAUGE)
    else if i == 2 then Some(SUMMARY)
    else if i == 3 then Some(UNTYPED)
    else if i == 4 then Some(HISTOGRAM)
    else None
  }

  /** Two's complement. */
  function I64Bits(n: i64): u64 {
    if n < 0 then n + TWO64 else n
  }

  function I64From(n: u64): i64 {
    if n < TWO63 then n else n - TWO64
  }

  // ---- The fields each message is written as, in order ----------------------------------------------------

  function StringField(number: nat, s: Option<string>): seq<Field> {
    if s.None? then [] else [Field(number, Bytes(Encode(s.value)))]
  }

  function DoubleField(number: nat, v: Option<u64>): seq<Field> {
    if v.None? then [] else [Field(number, Fixed64(v.value))]
  }

  function U64Field(number: nat, v: Option<u64>): seq<Field> {
    if v.None? then [] else [Field(number, Varint(v.value))]
  }

  /** How a message nested in another is written and read. */
  datatype Codec<!M> = Codec(bytes: M -> seq<byte>, parse: seq<byte> -> Option<M>)

  function MessageField<M>(number: nat, m: Option<M>, codec: Codec<M>): seq<Field> {
    if m.None? then [] else [Field(number, Bytes(codec.bytes(m.value)))]
  }

  function RepeatedField<M>(number: nat, ms: seq<M>, codec: Codec<M>): (fs: seq<Field>)
    ensures |fs| == |ms|
    ensures forall i :: 0 <= i < |ms| ==> fs[i] == Field(number, Bytes(codec.bytes(ms[i])))
  {
    if ms == [] then []
    else RepeatedField(number, ms[..|ms| - 1], codec) + [Field(number, Bytes(codec.bytes(ms[|ms| - 1])))]
  }

  function LabelSections(m: LabelPair): seq<seq<Field>> {
    [StringField(1, m.name), StringField(2, m.value)]
  }

  function LabelBytes(m: LabelPair): seq<byte> { EncodeFields(Flatten(LabelSections(m))) }

  function NumberSections(m: Number): seq<seq<Field>> {
    [DoubleField(1, m.value)]
  }

  function NumberBytes(m: Number): seq<byte> { EncodeFields(Flatten(NumberSections(m))) }

  function QuantileSections(m: Quantile): seq<seq<Field>> {
    [DoubleField(1, m.quantile), DoubleField(2, m.value)]
  }

  function QuantileBytes(m: Quantile): seq<byte> { EncodeFields(Flatten(QuantileSections(m))) }

  function SummarySections(quantiles: Codec<Quantile>, m: Summary): seq<seq<Field>> {
    [U64Field(1, m.sampleCount), DoubleField(2, m.sampleSum), RepeatedField(3, m.quantile, quantiles)]
  }

  function SummaryBytes(m: Summary): seq<byte> { EncodeFields(Flatten(SummarySections(QUANTILE_CODEC, m))) }

  function BucketSections(m: Bucket): seq<seq<Field>> {
    [U64Field(1, m.cumulativeCount), DoubleField(2, m.upperBound)]
  }

  function BucketBytes(m: Bucket): seq<byte> { EncodeFields(Flatten(BucketSections(m))) }

  function HistogramSections(buckets: Codec<Bucket>, m: Histogram): seq<seq<Field>> {
    [U64Field(1, m.sampleCount), DoubleField(2, m.sampleSum), RepeatedField(3, m.bucket, buckets)]
  }

  function HistogramBytes(m: Histogram): seq<byte> { EncodeFields(Flatten(HistogramSections(BUCKET_CODEC, m))) }

  /** The codecs of the messages nested in a metric. */
  datatype Parts = Parts(
    labels: Codec<LabelPair>,
    numbers: Codec<Number>,
    summaries: Codec<Summary>,
    histograms: Codec<Histogram>)

  /** The histogram, number 7, is written before the timestamp, number 6. */
  function MetricSections(parts: Parts, m: Metric): seq<seq<Field>> {
    [RepeatedField(1, m.labels, parts.labels),
     MessageField(2, m.gauge, parts.numbers),
     MessageField(3, m.counter, parts.numbers),
     MessageField(4, m.summary, parts.summaries),
     MessageField(5, m.untyped, parts.numbers),
     MessageField(7, m.histogram, parts.histograms),
     U64Field(6, if m.timestampMs.None? then None else Some(I64Bits(m.timestampMs.value)))]
  }

  function MetricBytes(m: Metric): seq<byte> { EncodeFields(Flatten(MetricSections(METRIC_PARTS, m))) }

  function FamilySections(metrics: Codec<Metric>, m: MetricFamily): seq<seq<Field>> {
    [StringField(1, m.name),
     StringField(2, m.help),
     U64Field(3, if m.fieldType.None? then None else Some(TypeValue(m.fieldType.value))),
     RepeatedField(4, m.metric, metrics)]
  }

  function FamilyBytes(m: MetricFamily): seq<byte> { EncodeFields(Flatten(FamilySections(METRIC_CODEC, m))) }

  // ---- What reading one field does ------------------------------------------------------------------------

  const EMPTY_LABEL := LabelPair(None, None)
  const EMPTY_NUMBER := Number(None)
  const EMPTY_QUANTILE := Quantile(None, None)
  const EMPTY_SUMMARY := Summary(None, None, [])
  const EMPTY_BUCKET := Bucket(None, None)
  const EMPTY_HISTOGRAM := Histogram(None, None, [])
  const EMPTY_METRIC := Metric([], None, None, None, None, None, None)
  const EMPTY_FAMILY := MetricFamily(None, None, None, [])

  function AsString(v: Value): Option<string> {
    if v.Bytes? then Decode(v.bs) else None
  }

  // A field number that a message does not have is passed over; one that it has wants its own wire type.

  function ApplyLabel(m: LabelPair, f: Field): Option<LabelPair> {
    if f.number == 1 || f.number == 2 then
      match AsString(f.value)
      case None => None
      case Some(s) => if f.number == 1 then Some(m.(name := Some(s))) else Some(m.(value := Some(s)))
    else Some(m)
  }

  function ParseLabel(bs: seq<byte>): Option<LabelPair> { MergeBytes(ApplyLabel, EMPTY_LABEL, bs) }

  const LABEL_CODEC: Codec<LabelPair> := Codec(LabelBytes, ParseLabel)

  function ApplyNumber(m: Number, f: Field): Option<Number> {
    if f.number == 1 then (if f.value.Fixed64? then Some(m.(value := Some(f.value.bits))) else None)
    else Some(m)
  }

  function ParseNumber(bs: seq<byte>): Option<Number> { MergeBytes(ApplyNumber, EMPTY_NUMBER, bs) }

  const NUMBER_CODEC: Codec<Number> := Codec(NumberBytes, ParseNumber)

  function ApplyQuantile(m: Quantile, f: Field): Option<Quantile> {
    if f.number == 1 then (if f.value.Fixed64? then Some(m.(quantile := Some(f.value.bits))) else None)
    else if f.number == 2 then (if f.value.Fixed64? then Some(m.(value := Some(f.value.bits))) else None)
    else Some(m)
  }

  function ParseQuantile(bs: seq<byte>): Option<Quantile> { MergeBytes(ApplyQuantile, EMPTY_QUANTILE, bs) }

  const QUANTILE_CODEC: Codec<Quantile> := Codec(QuantileBytes, ParseQuantile)

  function ApplySummary(quantiles: Codec<Quantile>, m: Summary, f: Field): Option<Summary> {
    if f.number == 1 then (if f.value.Varint? then Some(m.(sampleCount := Some(f.value.n))) else None)
    else if f.number == 2 then (if f.value.Fixed64? then Some(m.(sampleSum := Some(f.value.bits))) else None)
    else if f.number == 3 then
      if !f.value.Bytes? then None
      else
        match quantiles.parse(f.value.bs)
        case None => None
        case Some(q) => Some(m.(quantile := m.quantile + [q]))
    else Some(m)
  }

  function SummaryReader(quantiles: Codec<Quantile>): (Summary, Field) -> Option<Summary> {
    (m, f) => ApplySummary(quantiles, m, f)
  }

  function ParseSummary(bs: seq<byte>): Option<Summary> {
    MergeBytes(SummaryReader(QUANTILE_CODEC), EMPTY_SUMMARY, bs)
  }

  const SUMMARY_CODEC: Codec<Summary> := Codec(SummaryBytes, ParseSummary)

  function ApplyBucket(m: Bucket, f: Field): Option<Bucket> {
    if f.number == 1 then (if f.value.Varint? then Some(m.(cumulativeCount := Some(f.value.n))) else None)
    else if f.number == 2 then (if f.value.Fixed64? then Some(m.(upperBound := Some(f.value.bits))) else None)
    else Some(m)
  }

  function ParseBucket(bs: seq<byte>): Option<Bucket> { MergeBytes(ApplyBucket, EMPTY_BUCKET, bs) }

  const BUCKET_CODEC: Codec<Bucket> := Codec(BucketBytes, ParseBucket)

  function ApplyHistogram(buckets: Codec<Bucket>, m: Histogram, f: Field): Option<Histogram> {
    if f.number == 1 then (if f.value.Varint? then Some(m.(sampleCount := Some(f.value.n))) else None)
    else if f.number == 2 then (if f.value.Fixed64? then Some(m.(sampleSum := Some(f.value.bits))) else None)
    else if f.number == 3 then
      if !f.value.Bytes? then None
      else
        match buckets.parse(f.value.bs)
        case None => None
        case Some(b) => Some(m.(bucket := m.bucket + [b]))
    else Some(m)
  }

  function HistogramReader(buckets: Codec<Bucket>): (Histogram, Field) -> Option<Histogram> {
    (m, f) => ApplyHistogram(buckets, m, f)
  }

  function ParseHistogram(bs: seq<byte>): Option<Histogram> {
    MergeBytes(HistogramReader(BUCKET_CODEC), EMPTY_HISTOGRAM, bs)
  }

  const HISTOGRAM_CODEC: Codec<Histogram> := Codec(HistogramBytes, ParseHistogram)

  const METRIC_PARTS := Parts(LABEL_CODEC, NUMBER_CODEC, SUMMARY_CODEC, HISTOGRAM_CODEC)

  function ApplyMetric(parts: Parts, m: Metric, f: Field): Option<Metric> {
    if f.number == 6 then (if f.value.Varint? then Some(m.(timestampMs := Some(I64From(f.value.n)))) else None)
    else if f.number == 0 || f.number > 7 then Some(m)
    else if !f.value.Bytes? then None
    else if f.number == 1 then
      match parts.labels.parse(f.value.bs)
      case None => None
      case Some(l) => Some(m.(labels := m.labels + [l]))
    else if f.number == 2 then
      match parts.numbers.parse(f.value.bs)
      case None => None
      case Some(g) => Some(m.(gauge := Some(g)))
    else if f.number == 3 then
      match parts.numbers.parse(f.value.bs)
      case None => None
      case Some(c) => Some(m.(counter := Some(c)))
    else if f.number == 4 then
      match parts.summaries.parse(f.value.bs)
      case None => None
      case Some(s) => Some(m.(summary := Some(s)))
    else if f.number == 5 then
      match parts.numbers.parse(f.value.bs)
      case None => None
      case Some(u) => Some(m.(untyped := Some(u)))
    else
      match parts.histograms.parse(f.value.bs)
      case None => None
      case Some(h) => Some(m.(histogram := Some(h)))
  }

  function MetricReader(parts: Parts): (Metric, Field) -> Option<Metric> {
    (m, f) => ApplyMetric(parts, m, f)
  }

  function ParseMetric(bs: seq<byte>): Option<Metric> {
    MergeBytes(MetricReader(METRIC_PARTS), EMPTY_METRIC, bs)
  }

  const METRIC_CODEC: Codec<Metric> := Codec(MetricBytes, ParseMetric)

  function ApplyFamily(metrics: Codec<Metric>, m: MetricFamily, f: Field): Option<MetricFamily> {
    if f.number == 1 || f.number == 2 then
      match AsString(f.value)
      case None => None
      case Some(s) => if f.number == 1 then Some(m.(name := Some(s))) else Some(m.(help := Some(s)))
    else if f.number == 3 then
      if !f.value.Varint? then None
      else
        match TypeFrom(f.value.n)
        case None => Some(m)
        case Some(t) => Some(m.(fieldType := Some(t)))
    else if f.number == 4 then
      if !f.value.Bytes? then None
      else
        match metrics.parse(f.value.bs)
        case None => None
        case Some(x) => Some(m.(metric := m.metric + [x]))
    else Some(m)
  }

  function FamilyReader(metrics: Codec<Metric>): (MetricFamily, Field) -> Option<MetricFamily> {
    (m, f) => ApplyFamily(metrics, m, f)
  }

  function ParseFamily(bs: seq<byte>): Option<MetricFamily> {
    MergeBytes(FamilyReader(METRIC_CODEC), EMPTY_FAMILY, bs)
  }
}
