/**
 Sizes and writing.  `ComputeSize` walks a message tree and leaves the size of every nested message in a
 table, as the messages' cached sizes do; writing takes the length prefixes from that table.
 */
module ProtoWriter {
  import opened Integers
  import opened Wrappers
  import opened Sequences
  import opened Utf8
  import opened Wire
  import opened ProtoModel
  import opened ProtoStreams

  // ---- Sizes of single fields -----------------------------------------------------------------------------

  /** The size of a varint by thresholds, as the runtime computes it. */
  function VarintSize(n: u64): nat {
    if n < 0x80 then 1
    else if n < 0x4000 then 2
    else if n < 0x20_0000 then 3
    else if n < 0x1000_0000 then 4
    else if n < 0x8_0000_0000 then 5
    else if n < 0x400_0000_0000 then 6
    else if n < 0x2_0000_0000_0000 then 7
    else if n < 0x100_0000_0000_0000 then 8
    else if n < 0x8000_0000_0000_0000 then 9
    else 10
  }

  lemma {:induction false} VarintLength(n: nat, k: nat)
    requires k > 0 && n < Power128(k) && (k > 1 ==> Power128(k - 1) <= n)
    ensures |EncodeVarint(n)| == k
  {
    if n >= 0x80 {
      assert Power128(1) == 0x80;
      assert n == n % 0x80 + 0x80 * (n / 0x80);
      VarintLength(n / 0x80, k - 1);
    } else if k > 1 {
      PowerAtLeast(k - 1);
    }
  }

  lemma {:induction false} PowerAtLeast(k: nat)
    requires k > 0
    ensures Power128(k) >= 0x80
  {
    if k > 1 {
      PowerAtLeast(k - 1);
    }
  }

  lemma VarintSizeIsLength(n: u64)
    ensures VarintSize(n) == |EncodeVarint(n)|
  {
    Power128Covers();
    assert Power128(1) == 0x80 && Power128(2) == 0x4000 && Power128(3) == 0x20_0000 && Power128(4) == 0x1000_0000;
    assert Power128(5) == 0x8_0000_0000 && Power128(6) == 0x400_0000_0000 && Power128(7) == 0x2_0000_0000_0000;
    assert Power128(8) == 0x100_0000_0000_0000 && Power128(9) == 0x8000_0000_0000_0000;
    VarintLength(n, VarintSize(n));
  }

  function StringSize(s: Option<string>): nat
    requires s.Some? ==> |Encode(s.value)| < TWO32
  {
    if s.None? then 0 else 1 + VarintSize(|Encode(s.value)|) + |Encode(s.value)|
  }

  function DoubleSize(v: Option<u64>): nat {
    if v.None? then 0 else 9
  }

  function U64Size(v: Option<u64>): nat {
    if v.None? then 0 else 1 + VarintSize(v.value)
  }

  /** Tag, length prefix and body of a nested message. */
  function NestedSize(len: u32): nat {
    1 + VarintSize(len) + len
  }

  lemma EncodeOne(f: Field)
    ensures EncodeFields([f]) == EncodeField(f)
  {
    assert [f][1..] == [];
  }

  lemma StringLength(number: nat, s: Option<string>)
    requires 0 < number < 16 && |EncodeFields(StringField(number, s))| < TWO32
    ensures s.Some? ==> |Encode(s.value)| < TWO32
    ensures StringSize(s) == |EncodeFields(StringField(number, s))|
  {
    if s.Some? {
      EncodeOne(StringField(number, s)[0]);
      VarintSizeIsLength(|Encode(s.value)|);
    }
  }

  lemma DoubleLength(number: nat, v: Option<u64>)
    requires 0 < number < 16
    ensures DoubleSize(v) == |EncodeFields(DoubleField(number, v))|
  {
    if v.Some? {
      EncodeOne(DoubleField(number, v)[0]);
    }
  }

  lemma U64Length(number: nat, v: Option<u64>)
    requires 0 < number < 16
    ensures U64Size(v) == |EncodeFields(U64Field(number, v))|
  {
    if v.Some? {
      EncodeOne(U64Field(number, v)[0]);
      VarintSizeIsLength(v.value);
    }
  }

  lemma NestedLength(number: nat, bs: seq<byte>)
    requires 0 < number < 16 && |bs| < TWO32
    ensures |EncodeField(Field(number, Bytes(bs)))| == NestedSize(|bs|)
  {
    VarintSizeIsLength(|bs|);
  }

  // ---- A message's bytes are its sections' bytes ----------------------------------------------------------

  lemma EncodeNext(ss: seq<seq<Field>>, last: seq<Field>)
    ensures EncodeFields(Flatten(ss + [last])) == EncodeFields(Flatten(ss)) + EncodeFields(last)
  {
    assert (ss + [last])[..|ss|] == ss;
    EncodeConcat(Flatten(ss), last);
  }

  lemma EncodeSections2(a: seq<Field>, b: seq<Field>)
    ensures EncodeFields(Flatten([a])) == [] + EncodeFields(a)
    ensures EncodeFields(Flatten([a, b])) == [] + EncodeFields(a) + EncodeFields(b)
  {
    assert [] + [a] == [a] && [a] + [b] == [a, b];
    EncodeNext([], a);
    EncodeNext([a], b);
  }

  lemma EncodeSections4(a: seq<Field>, b: seq<Field>, c: seq<Field>, d: seq<Field>)
    ensures EncodeFields(Flatten([a, b, c])) == [] + EncodeFields(a) + EncodeFields(b) + EncodeFields(c)
    ensures EncodeFields(Flatten([a, b, c, d]))
         == [] + EncodeFields(a) + EncodeFields(b) + EncodeFields(c) + EncodeFields(d)
  {
    EncodeSections2(a, b);
    assert [a, b] + [c] == [a, b, c] && [a, b, c] + [d] == [a, b, c, d];
    EncodeNext([a, b], c);
    EncodeNext([a, b, c], d);
  }

  lemma EncodeSections7(ss: seq<seq<Field>>)
    requires |ss| == 7
    ensures EncodeFields(Flatten(ss))
         == [] + EncodeFields(ss[0]) + EncodeFields(ss[1]) + EncodeFields(ss[2]) + EncodeFields(ss[3])
            + EncodeFields(ss[4]) + EncodeFields(ss[5]) + EncodeFields(ss[6])
  {
    var sofar := seq(8, k requires 0 <= k < 8 => EncodeFields(Flatten(ss[..k])));
    var parts := seq(7, k requires 0 <= k < 7 => EncodeFields(ss[k]));
    forall k | 0 <= k < 7 ensures sofar[k + 1] == sofar[k] + parts[k] {
      EncodeUpTo(ss, k);
    }
    assert ss[..0] == [] && ss[..7] == ss;
    Chain7(sofar, parts);
  }

  lemma Chain7<T>(sofar: seq<seq<T>>, parts: seq<seq<T>>)
    requires |sofar| == 8 && |parts| == 7 && sofar[0] == []
    requires forall k :: 0 <= k < 7 ==> sofar[k + 1] == sofar[k] + parts[k]
    ensures sofar[7] == [] + parts[0] + parts[1] + parts[2] + parts[3] + parts[4] + parts[5] + parts[6]
  {
    assert sofar[1] == [] + parts[0] && sofar[2] == sofar[1] + parts[1] && sofar[3] == sofar[2] + parts[2];
    assert sofar[4] == sofar[3] + parts[3] && sofar[5] == sofar[4] + parts[4] && sofar[6] == sofar[5] + parts[5];
  }

  lemma EncodeUpTo(ss: seq<seq<Field>>, k: nat)
    requires k < |ss|
    ensures EncodeFields(Flatten(ss[..k + 1])) == EncodeFields(Flatten(ss[..k])) + EncodeFields(ss[k])
  {
    assert ss[..k + 1] == ss[..k] + [ss[k]];
    EncodeNext(ss[..k], ss[k]);
  }

  lemma RepeatedNext<M>(number: nat, xs: seq<M>, codec: Codec<M>, i: nat)
    requires i < |xs|
    ensures EncodeFields(RepeatedField(number, xs[..i + 1], codec))
         == EncodeFields(RepeatedField(number, xs[..i], codec)) + EncodeField(Field(number, Bytes(codec.bytes(xs[i]))))
  {
    assert xs[..i + 1][..i] == xs[..i];
    EncodeConcat(RepeatedField(number, xs[..i], codec), [Field(number, Bytes(codec.bytes(xs[i])))]);
    EncodeOne(Field(number, Bytes(codec.bytes(xs[i]))));
  }

  lemma {:induction false} RepeatedPrefix<M>(number: nat, xs: seq<M>, codec: Codec<M>, i: nat)
    requires i <= |xs|
    ensures |EncodeFields(RepeatedField(number, xs[..i], codec))| <= |EncodeFields(RepeatedField(number, xs, codec))|
    decreases |xs| - i
  {
    if i == |xs| {
      assert xs[..i] == xs;
    } else {
      RepeatedPrefix(number, xs, codec, i + 1);
      RepeatedNext(number, xs, codec, i);
    }
  }

  /** Each item of a repeated part adds its nested size, and the parts so far fit. */
  lemma ItemFits<M>(number: nat, xs: seq<M>, codec: Codec<M>, i: nat)
    requires i < |xs| && 0 < number < 16
    requires |EncodeFields(RepeatedField(number, xs, codec))| < TWO32
    ensures |codec.bytes(xs[i])| < TWO32
    ensures |EncodeFields(RepeatedField(number, xs[..i], codec))| + NestedSize(|codec.bytes(xs[i])|)
         == |EncodeFields(RepeatedField(number, xs[..i + 1], codec))|
         <= |EncodeFields(RepeatedField(number, xs, codec))|
  {
    RepeatedNext(number, xs, codec, i);
    RepeatedPrefix(number, xs, codec, i + 1);
    NestedLength(number, codec.bytes(xs[i]));
  }

  function AddU32(a: u32, b: nat): u32 {
    (a + b) % TWO32
  }

  /** Item by item, so that the loops below see no more of an item's size than its number. */
  ghost predicate Lengths<M>(xs: seq<M>, codec: Codec<M>, lens: seq<u32>) {
    && |lens| == |xs|
    && (xs != [] ==> |codec.bytes(xs[0])| == lens[0] && Lengths(xs[1..], codec, lens[1..]))
  }

  lemma {:induction false} LengthsAll<M>(xs: seq<M>, codec: Codec<M>, lens: seq<u32>)
    requires |lens| == |xs| && forall i :: 0 <= i < |xs| ==> |codec.bytes(xs[i])| == lens[i]
    ensures Lengths(xs, codec, lens)
  {
    if xs != [] {
      LengthsAll(xs[1..], codec, lens[1..]);
    }
  }

  lemma {:induction false} LengthsAt<M>(xs: seq<M>, codec: Codec<M>, lens: seq<u32>, i: nat)
    requires Lengths(xs, codec, lens) && i < |xs|
    ensures |lens| == |xs| && |codec.bytes(xs[i])| == lens[i]
  {
    if i > 0 {
      LengthsAt(xs[1..], codec, lens[1..], i - 1);
    }
  }

  /** The size of a repeated part whose items have these sizes. */
  function TotalSize(lens: seq<u32>): nat {
    if lens == [] then 0 else TotalSize(lens[..|lens| - 1]) + NestedSize(lens[|lens| - 1])
  }

  lemma {:induction false} TotalSizePrefix(lens: seq<u32>, i: nat)
    requires i < |lens|
    ensures TotalSize(lens[..i]) + NestedSize(lens[i]) == TotalSize(lens[..i + 1]) <= TotalSize(lens)
    decreases |lens| - i
  {
    assert lens[..i + 1][..i] == lens[..i] && lens[..|lens|] == lens;
    if i + 1 < |lens| {
      TotalSizePrefix(lens, i + 1);
    }
  }

  lemma ItemLengths<M>(number: nat, xs: seq<M>, codec: Codec<M>, bs: seq<byte>) returns (lens: seq<u32>)
    requires 0 < number < 16 && bs == EncodeFields(RepeatedField(number, xs, codec)) && |bs| < TWO32
    ensures TotalSize(lens) == |bs| && Lengths(xs, codec, lens)
  {
    forall i | 0 <= i < |xs| ensures |codec.bytes(xs[i])| < TWO32 {
      ItemFits(number, xs, codec, i);
    }
    lens := seq(|xs|, i requires 0 <= i < |xs| => |codec.bytes(xs[i])|);
    ItemLengthsUpTo(number, xs, codec, lens, |xs|);
    assert xs[..|xs|] == xs && lens[..|xs|] == lens;
    LengthsAll(xs, codec, lens);
  }

  lemma {:induction false} ItemLengthsUpTo<M>(number: nat, xs: seq<M>, codec: Codec<M>, lens: seq<u32>, k: nat)
    requires 0 < number < 16 && |EncodeFields(RepeatedField(number, xs, codec))| < TWO32
    requires |lens| == |xs| && forall i :: 0 <= i < |xs| ==> |codec.bytes(xs[i])| == lens[i]
    requires k <= |xs|
    ensures TotalSize(lens[..k]) == |EncodeFields(RepeatedField(number, xs[..k], codec))|
  {
    if k == 0 {
      assert xs[..0] == [] && lens[..0] == [];
    } else {
      ItemFits(number, xs, codec, k - 1);
      ItemLengthsUpTo(number, xs, codec, lens, k - 1);
      TotalSizePrefix(lens, k - 1);
    }
  }

  method AddNested(size: u32, len: u32, ghost sum: nat) returns (r: u32)
    requires size + NestedSize(len) == sum < TWO32
    ensures r == sum
  {
    r := AddU32(size, NestedSize(len));
  }

  /** One more item: its size is added up and put into the table. */
  method AddSize(size: u32, items: seq<u32>, len: u32, ghost i: nat, ghost lens: seq<u32>)
    returns (size': u32, items': seq<u32>)
    requires i < |lens| && TotalSize(lens) < TWO32 && len == lens[i]
    requires items == lens[..i] && size == TotalSize(lens[..i])
    ensures items' == lens[..i + 1] && size' == TotalSize(lens[..i + 1])
  {
    TotalSizePrefix(lens, i);
    size' := AddNested(size, len, TotalSize(lens[..i + 1]));
    items' := items + [len];
  }

  lemma NoWrap(a: u32, b: nat)
    requires a + b < TWO32
    ensures AddU32(a, b) == a + b
  {
  }

  lemma MessageLength<M>(number: nat, m: Option<M>, codec: Codec<M>)
    requires 0 < number < 16 && |EncodeFields(MessageField(number, m, codec))| < TWO32
    ensures m.Some? ==> |codec.bytes(m.value)| < TWO32
    ensures |EncodeFields(MessageField(number, m, codec))| == if m.Some? then NestedSize(|codec.bytes(m.value)|) else 0
  {
    if m.Some? {
      EncodeOne(MessageField(number, m, codec)[0]);
      NestedLength(number, codec.bytes(m.value));
    }
  }

  // ---- The table of cached sizes --------------------------------------------------------------------------

  /** The size of a message and of each message in its repeated part. */
  datatype ListSizes = ListSizes(total: u32, items: seq<u32>)

  datatype MetricSizes = MetricSizes(
    total: u32,
    labels: seq<u32>,
    gauge: u32,
    counter: u32,
    summary: ListSizes,
    untyped: u32,
    histogram: ListSizes)

  datatype FamilySizes = FamilySizes(total: u32, metric: seq<MetricSizes>)

  const NO_LIST := ListSizes(0, [])

  /** The table holds the byte lengths of the message and of everything nested in it. */
  ghost predicate SizesOfSummary(m: Summary, z: ListSizes) {
    && z.total == |SummaryBytes(m)|
    && |z.items| == |m.quantile|
    && (forall i :: 0 <= i < |m.quantile| ==> z.items[i] == |QuantileBytes(m.quantile[i])|)
  }

  ghost predicate SizesOfHistogram(m: Histogram, z: ListSizes) {
    && z.total == |HistogramBytes(m)|
    && |z.items| == |m.bucket|
    && (forall i :: 0 <= i < |m.bucket| ==> z.items[i] == |BucketBytes(m.bucket[i])|)
  }

  ghost predicate SizesOfMetric(m: Metric, z: MetricSizes) {
    && z.total == |MetricBytes(m)|
    && |z.labels| == |m.labels|
    && (forall i :: 0 <= i < |m.labels| ==> z.labels[i] == |LabelBytes(m.labels[i])|)
    && (m.gauge.Some? ==> z.gauge == |NumberBytes(m.gauge.value)|)
    && (m.counter.Some? ==> z.counter == |NumberBytes(m.counter.value)|)
    && (m.summary.Some? ==> SizesOfSummary(m.summary.value, z.summary))
    && (m.untyped.Some? ==> z.untyped == |NumberBytes(m.untyped.value)|)
    && (m.histogram.Some? ==> SizesOfHistogram(m.histogram.value, z.histogram))
  }

  ghost predicate SizesOfFamily(m: MetricFamily, z: FamilySizes) {
    && z.total == |FamilyBytes(m)|
    && |z.metric| == |m.metric|
    && (forall i :: 0 <= i < |m.metric| ==> SizesOfMetric(m.metric[i], z.metric[i]))
  }

  // ---- The bytes of each message, section by section ------------------------------------------------------

  function StampBits(m: Metric): Option<u64> {
    if m.timestampMs.None? then None else Some(I64Bits(m.timestampMs.value))
  }

  function TypeBits(m: MetricFamily): Option<u64> {
    if m.fieldType.None? then None else Some(TypeValue(m.fieldType.value))
  }

  lemma LabelSplit(m: LabelPair) returns (a: seq<byte>, b: seq<byte>)
    ensures LabelBytes(m) == [] + a + b
    ensures a == EncodeFields(StringField(1, m.name))
    ensures b == EncodeFields(StringField(2, m.value))
  {
    a := EncodeFields(StringField(1, m.name));
    b := EncodeFields(StringField(2, m.value));
    EncodeSections2(StringField(1, m.name),
                    StringField(2, m.value));
  }

  lemma NumberSplit(m: Number) returns (a: seq<byte>)
    ensures NumberBytes(m) == [] + a
    ensures a == EncodeFields(DoubleField(1, m.value))
  {
    a := EncodeFields(DoubleField(1, m.value));
    EncodeSections2(DoubleField(1, m.value),
                    []);
  }

  lemma QuantileSplit(m: Quantile) returns (a: seq<byte>, b: seq<byte>)
    ensures QuantileBytes(m) == [] + a + b
    ensures a == EncodeFields(DoubleField(1, m.quantile))
    ensures b == EncodeFields(DoubleField(2, m.value))
  {
    a := EncodeFields(DoubleField(1, m.quantile));
    b := EncodeFields(DoubleField(2, m.value));
    EncodeSections2(DoubleField(1, m.quantile),
                    DoubleField(2, m.value));
  }

  lemma BucketSplit(m: Bucket) returns (a: seq<byte>, b: seq<byte>)
    ensures BucketBytes(m) == [] + a + b
    ensures a == EncodeFields(U64Field(1, m.cumulativeCount))
    ensures b == EncodeFields(DoubleField(2, m.upperBound))
  {
    a := EncodeFields(U64Field(1, m.cumulativeCount));
    b := EncodeFields(DoubleField(2, m.upperBound));
    EncodeSections2(U64Field(1, m.cumulativeCount),
                    DoubleField(2, m.upperBound));
  }

  lemma SummarySplit(m: Summary) returns (a: seq<byte>, b: seq<byte>, c: seq<byte>)
    ensures SummaryBytes(m) == [] + a + b + c
    ensures a == EncodeFields(U64Field(1, m.sampleCount))
    ensures b == EncodeFields(DoubleField(2, m.sampleSum))
    ensures c == EncodeFields(RepeatedField(3, m.quantile, QUANTILE_CODEC))
  {
    a := EncodeFields(U64Field(1, m.sampleCount));
    b := EncodeFields(DoubleField(2, m.sampleSum));
    c := EncodeFields(RepeatedField(3, m.quantile, QUANTILE_CODEC));
    EncodeSections4(U64Field(1, m.sampleCount),
                    DoubleField(2, m.sampleSum),
                    RepeatedField(3, m.quantile, QUANTILE_CODEC),
                    []);
  }

  lemma HistogramSplit(m: Histogram) returns (a: seq<byte>, b: seq<byte>, c: seq<byte>)
    ensures HistogramBytes(m) == [] + a + b + c
    ensures a == EncodeFields(U64Field(1, m.sampleCount))
    ensures b == EncodeFields(DoubleField(2, m.sampleSum))
    ensures c == EncodeFields(RepeatedField(3, m.bucket, BUCKET_CODEC))
  {
    a := EncodeFields(U64Field(1, m.sampleCount));
    b := EncodeFields(DoubleField(2, m.sampleSum));
    c := EncodeFields(RepeatedField(3, m.bucket, BUCKET_CODEC));
    EncodeSections4(U64Field(1, m.sampleCount),
                    DoubleField(2, m.sampleSum),
                    RepeatedField(3, m.bucket, BUCKET_CODEC),
                    []);
  }

  lemma MetricSplit(m: Metric)
    returns (a: seq<byte>, b: seq<byte>, c: seq<byte>, d: seq<byte>, e: seq<byte>, f: seq<byte>, g: seq<byte>)
    ensures MetricBytes(m) == [] + a + b + c + d + e + f + g
    ensures a == EncodeFields(RepeatedField(1, m.labels, LABEL_CODEC))
    ensures b == EncodeFields(MessageField(2, m.gauge, NUMBER_CODEC))
    ensures c == EncodeFields(MessageField(3, m.counter, NUMBER_CODEC))
    ensures d == EncodeFields(MessageField(4, m.summary, SUMMARY_CODEC))
    ensures e == EncodeFields(MessageField(5, m.untyped, NUMBER_CODEC))
    ensures f == EncodeFields(MessageField(7, m.histogram, HISTOGRAM_CODEC))
    ensures g == EncodeFields(U64Field(6, StampBits(m)))
  {
    a := EncodeFields(RepeatedField(1, m.labels, LABEL_CODEC));
    b := EncodeFields(MessageField(2, m.gauge, NUMBER_CODEC));
    c := EncodeFields(MessageField(3, m.counter, NUMBER_CODEC));
    d := EncodeFields(MessageField(4, m.summary, SUMMARY_CODEC));
    e := EncodeFields(MessageField(5, m.untyped, NUMBER_CODEC));
    f := EncodeFields(MessageField(7, m.histogram, HISTOGRAM_CODEC));
    g := EncodeFields(U64Field(6, StampBits(m)));
    EncodeSections7(MetricSections(METRIC_PARTS, m));
  }

  lemma FamilySplit(m: MetricFamily) returns (a: seq<byte>, b: seq<byte>, c: seq<byte>, d: seq<byte>)
    ensures FamilyBytes(m) == [] + a + b + c + d
    ensures a == EncodeFields(StringField(1, m.name))
    ensures b == EncodeFields(StringField(2, m.help))
    ensures c == EncodeFields(U64Field(3, TypeBits(m)))
    ensures d == EncodeFields(RepeatedField(4, m.metric, METRIC_CODEC))
  {
    a := EncodeFields(StringField(1, m.name));
    b := EncodeFields(StringField(2, m.help));
    c := EncodeFields(U64Field(3, TypeBits(m)));
    d := EncodeFields(RepeatedField(4, m.metric, METRIC_CODEC));
    EncodeSections4(StringField(1, m.name),
                    StringField(2, m.help),
                    U64Field(3, TypeBits(m)),
                    RepeatedField(4, m.metric, METRIC_CODEC));
  }

  // ---- compute_size ---------------------------------------------------------------------------------------

  // The size of one section, as a number that shows nothing of how the section is encoded.

  method SizeOfString(number: nat, s: Option<string>, ghost bs: seq<byte>) returns (size: u32)
    requires 0 < number < 16 && bs == EncodeFields(StringField(number, s)) && |bs| < TWO32
    ensures size == |bs|
  {
    StringLength(number, s);
    size := StringSize(s);
  }

  method SizeOfDouble(number: nat, v: Option<u64>, ghost bs: seq<byte>) returns (size: u32)
    requires 0 < number < 16 && bs == EncodeFields(DoubleField(number, v))
    ensures size == |bs|
  {
    DoubleLength(number, v);
    size := DoubleSize(v);
  }

  method SizeOfU64(number: nat, v: Option<u64>, ghost bs: seq<byte>) returns (size: u32)
    requires 0 < number < 16 && bs == EncodeFields(U64Field(number, v))
    ensures size == |bs|
  {
    U64Length(number, v);
    size := U64Size(v);
  }

  method ComputeLabelSize(m: LabelPair) returns (mySize: u32)
    requires |LabelBytes(m)| < TWO32
    ensures mySize == |LabelBytes(m)|
  {
    ghost var a, b := LabelSplit(m);
    assert |LabelBytes(m)| == |a| + |b|;
    mySize := 0;
    var aSize := SizeOfString(1, m.name, a);
    NoWrap(mySize, aSize);
    mySize := AddU32(mySize, aSize);
    var bSize := SizeOfString(2, m.value, b);
    NoWrap(mySize, bSize);
    mySize := AddU32(mySize, bSize);
  }

  method ComputeNumberSize(m: Number) returns (mySize: u32)
    requires |NumberBytes(m)| < TWO32
    ensures mySize == |NumberBytes(m)|
  {
    ghost var a := NumberSplit(m);
    assert |NumberBytes(m)| == |a|;
    mySize := 0;
    var aSize := SizeOfDouble(1, m.value, a);
    NoWrap(mySize, aSize);
    mySize := AddU32(mySize, aSize);
  }

  method ComputeQuantileSize(m: Quantile) returns (mySize: u32)
    requires |QuantileBytes(m)| < TWO32
    ensures mySize == |QuantileBytes(m)|
  {
    ghost var a, b := QuantileSplit(m);
    assert |QuantileBytes(m)| == |a| + |b|;
    mySize := 0;
    var aSize := SizeOfDouble(1, m.quantile, a);
    NoWrap(mySize, aSize);
    mySize := AddU32(mySize, aSize);
    var bSize := SizeOfDouble(2, m.value, b);
    NoWrap(mySize, bSize);
    mySize := AddU32(mySize, bSize);
  }

  method ComputeBucketSize(m: Bucket) returns (mySize: u32)
    requires |BucketBytes(m)| < TWO32
    ensures mySize == |BucketBytes(m)|
  {
    ghost var a, b := BucketSplit(m);
    assert |BucketBytes(m)| == |a| + |b|;
    mySize := 0;
    var aSize := SizeOfU64(1, m.cumulativeCount, a);
    NoWrap(mySize, aSize);
    mySize := AddU32(mySize, aSize);
    var bSize := SizeOfDouble(2, m.upperBound, b);
    NoWrap(mySize, bSize);
    mySize := AddU32(mySize, bSize);
  }

  method SizeOfQuantiles(xs: seq<Quantile>, ghost bs: seq<byte>) returns (size: u32, items: seq<u32>)
    requires bs == EncodeFields(RepeatedField(3, xs, QUANTILE_CODEC)) && |bs| < TWO32
    ensures size == |bs| && |items| == |xs|
    ensures forall j :: 0 <= j < |xs| ==> items[j] == |QuantileBytes(xs[j])|
  {
    ghost var lens := ItemLengths(3, xs, QUANTILE_CODEC, bs);
    size, items := SumQuantiles(xs, lens);
    forall j | 0 <= j < |xs| ensures items[j] == |QuantileBytes(xs[j])| {
      LengthsAt(xs, QUANTILE_CODEC, lens, j);
    }
  }

  method NthQuantileSize(xs: seq<Quantile>, i: nat, ghost lens: seq<u32>) returns (len: u32)
    requires i < |xs| && Lengths(xs, QUANTILE_CODEC, lens)
    ensures |lens| == |xs| && len == lens[i]
  {
    LengthsAt(xs, QUANTILE_CODEC, lens, i);
    len := ComputeQuantileSize(xs[i]);
  }

  method SumQuantiles(xs: seq<Quantile>, ghost lens: seq<u32>) returns (size: u32, items: seq<u32>)
    requires Lengths(xs, QUANTILE_CODEC, lens) && TotalSize(lens) < TWO32
    ensures size == TotalSize(lens) && items == lens && |lens| == |xs|
  {
    size, items := 0, [];
    for i := 0 to |xs|
      invariant items == lens[..i] && size == TotalSize(lens[..i])
    {
      var len := NthQuantileSize(xs, i, lens);
      size, items := AddSize(size, items, len, i, lens);
    }
    assert lens[..|xs|] == lens;
  }

  method ComputeSummarySize(m: Summary) returns (z: ListSizes)
    requires |SummaryBytes(m)| < TWO32
    ensures SizesOfSummary(m, z)
  {
    ghost var a, b, c := SummarySplit(m);
    assert |SummaryBytes(m)| == |a| + |b| + |c|;
    var mySize: u32 := 0;
    var aSize := SizeOfU64(1, m.sampleCount, a);
    NoWrap(mySize, aSize);
    mySize := AddU32(mySize, aSize);
    var bSize := SizeOfDouble(2, m.sampleSum, b);
    NoWrap(mySize, bSize);
    mySize := AddU32(mySize, bSize);
    var cSize, quantile := SizeOfQuantiles(m.quantile, c);
    NoWrap(mySize, cSize);
    mySize := AddU32(mySize, cSize);
    z := ListSizes(mySize, quantile);
  }

  method SizeOfBuckets(xs: seq<Bucket>, ghost bs: seq<byte>) returns (size: u32, items: seq<u32>)
    requires bs == EncodeFields(RepeatedField(3, xs, BUCKET_CODEC)) && |bs| < TWO32
    ensures size == |bs| && |items| == |xs|
    ensures forall j :: 0 <= j < |xs| ==> items[j] == |BucketBytes(xs[j])|
  {
    ghost var lens := ItemLengths(3, xs, BUCKET_CODEC, bs);
    size, items := SumBuckets(xs, lens);
    forall j | 0 <= j < |xs| ensures items[j] == |BucketBytes(xs[j])| {
      LengthsAt(xs, BUCKET_CODEC, lens, j);
    }
  }

  method NthBucketSize(xs: seq<Bucket>, i: nat, ghost lens: seq<u32>) returns (len: u32)
    requires i < |xs| && Lengths(xs, BUCKET_CODEC, lens)
    ensures |lens| == |xs| && len == lens[i]
  {
    LengthsAt(xs, BUCKET_CODEC, lens, i);
    len := ComputeBucketSize(xs[i]);
  }

  method SumBuckets(xs: seq<Bucket>, ghost lens: seq<u32>) returns (size: u32, items: seq<u32>)
    requires Lengths(xs, BUCKET_CODEC, lens) && TotalSize(lens) < TWO32
    ensures size == TotalSize(lens) && items == lens && |lens| == |xs|
  {
    size, items := 0, [];
    for i := 0 to |xs|
      invariant items == lens[..i] && size == TotalSize(lens[..i])
    {
      var len := NthBucketSize(xs, i, lens);
      size, items := AddSize(size, items, len, i, lens);
    }
    assert lens[..|xs|] == lens;
  }

  method ComputeHistogramSize(m: Histogram) returns (z: ListSizes)
    requires |HistogramBytes(m)| < TWO32
    ensures SizesOfHistogram(m, z)
  {
    ghost var a, b, c := HistogramSplit(m);
    assert |HistogramBytes(m)| == |a| + |b| + |c|;
    var mySize: u32 := 0;
    var aSize := SizeOfU64(1, m.sampleCount, a);
    NoWrap(mySize, aSize);
    mySize := AddU32(mySize, aSize);
    var bSize := SizeOfDouble(2, m.sampleSum, b);
    NoWrap(mySize, bSize);
    mySize := AddU32(mySize, bSize);
    var cSize, bucket := SizeOfBuckets(m.bucket, c);
    NoWrap(mySize, cSize);
    mySize := AddU32(mySize, cSize);
    z := ListSizes(mySize, bucket);
  }

  method SizeOfOptionalNumber(number: nat, m: Option<Number>, ghost bs: seq<byte>) returns (size: u32, z: u32)
    requires 0 < number < 16 && bs == EncodeFields(MessageField(number, m, NUMBER_CODEC)) && |bs| < TWO32
    ensures size == |bs| && (m.Some? ==> z == |NumberBytes(m.value)|)
  {
    MessageLength(number, m, NUMBER_CODEC);
    size, z := 0, 0;
    if m.Some? {
      z := ComputeNumberSize(m.value);
      size := NestedSize(z);
    }
  }

  method SizeOfOptionalSummary(number: nat, m: Option<Summary>, ghost bs: seq<byte>) returns (size: u32, z: ListSizes)
    requires 0 < number < 16 && bs == EncodeFields(MessageField(number, m, SUMMARY_CODEC)) && |bs| < TWO32
    ensures size == |bs| && (m.Some? ==> SizesOfSummary(m.value, z))
  {
    MessageLength(number, m, SUMMARY_CODEC);
    size, z := 0, NO_LIST;
    if m.Some? {
      z := ComputeSummarySize(m.value);
      size := NestedSize(z.total);
    }
  }

  method SizeOfOptionalHistogram(number: nat, m: Option<Histogram>, ghost bs: seq<byte>) returns (size: u32, z: ListSizes)
    requires 0 < number < 16 && bs == EncodeFields(MessageField(number, m, HISTOGRAM_CODEC)) && |bs| < TWO32
    ensures size == |bs| && (m.Some? ==> SizesOfHistogram(m.value, z))
  {
    MessageLength(number, m, HISTOGRAM_CODEC);
    size, z := 0, NO_LIST;
    if m.Some? {
      z := ComputeHistogramSize(m.value);
      size := NestedSize(z.total);
    }
  }

  method SizeOfLabels(xs: seq<LabelPair>, ghost bs: seq<byte>) returns (size: u32, items: seq<u32>)
    requires bs == EncodeFields(RepeatedField(1, xs, LABEL_CODEC)) && |bs| < TWO32
    ensures size == |bs| && |items| == |xs|
    ensures forall j :: 0 <= j < |xs| ==> items[j] == |LabelBytes(xs[j])|
  {
    ghost var lens := ItemLengths(1, xs, LABEL_CODEC, bs);
    size, items := SumLabels(xs, lens);
    forall j | 0 <= j < |xs| ensures items[j] == |LabelBytes(xs[j])| {
      LengthsAt(xs, LABEL_CODEC, lens, j);
    }
  }

  method NthLabelSize(xs: seq<LabelPair>, i: nat, ghost lens: seq<u32>) returns (len: u32)
    requires i < |xs| && Lengths(xs, LABEL_CODEC, lens)
    ensures |lens| == |xs| && len == lens[i]
  {
    LengthsAt(xs, LABEL_CODEC, lens, i);
    len := ComputeLabelSize(xs[i]);
  }

  method SumLabels(xs: seq<LabelPair>, ghost lens: seq<u32>) returns (size: u32, items: seq<u32>)
    requires Lengths(xs, LABEL_CODEC, lens) && TotalSize(lens) < TWO32
    ensures size == TotalSize(lens) && items == lens && |lens| == |xs|
  {
    size, items := 0, [];
    for i := 0 to |xs|
      invariant items == lens[..i] && size == TotalSize(lens[..i])
    {
      var len := NthLabelSize(xs, i, lens);
      size, items := AddSize(size, items, len, i, lens);
    }
    assert lens[..|xs|] == lens;
  }

  method ComputeMetricSize(m: Metric) returns (z: MetricSizes)
    requires |MetricBytes(m)| < TWO32
    ensures SizesOfMetric(m, z)
  {
    ghost var a, b, c, d, e, f, g := MetricSplit(m);
    assert |MetricBytes(m)| == |a| + |b| + |c| + |d| + |e| + |f| + |g|;
    var mySize: u32 := 0;
    var aSize, labels := SizeOfLabels(m.labels, a);
    NoWrap(mySize, aSize);
    mySize := AddU32(mySize, aSize);
    var bSize, gauge := SizeOfOptionalNumber(2, m.gauge, b);
    NoWrap(mySize, bSize);
    mySize := AddU32(mySize, bSize);
    var cSize, counter := SizeOfOptionalNumber(3, m.counter, c);
    NoWrap(mySize, cSize);
    mySize := AddU32(mySize, cSize);
    var dSize, summary := SizeOfOptionalSummary(4, m.summary, d);
    NoWrap(mySize, dSize);
    mySize := AddU32(mySize, dSize);
    var eSize, untyped := SizeOfOptionalNumber(5, m.untyped, e);
    NoWrap(mySize, eSize);
    mySize := AddU32(mySize, eSize);
    var fSize, histogram := SizeOfOptionalHistogram(7, m.histogram, f);
    NoWrap(mySize, fSize);
    mySize := AddU32(mySize, fSize);
    var gSize := SizeOfU64(6, StampBits(m), g);
    NoWrap(mySize, gSize);
    mySize := AddU32(mySize, gSize);
    z := MetricSizes(mySize, labels, gauge, counter, summary, untyped, histogram);
  }

  ghost predicate SizesOfMetrics(xs: seq<Metric>, zs: seq<MetricSizes>) {
    && |zs| == |xs|
    && (xs != [] ==> SizesOfMetrics(xs[..|xs| - 1], zs[..|xs| - 1]) && SizesOfMetric(xs[|xs| - 1], zs[|xs| - 1]))
  }

  lemma {:induction false} SizesOfMetricsAll(xs: seq<Metric>, zs: seq<MetricSizes>)
    requires |zs| == |xs| && forall i :: 0 <= i < |xs| ==> SizesOfMetric(xs[i], zs[i])
    ensures SizesOfMetrics(xs, zs)
  {
    if xs != [] {
      SizesOfMetricsAll(xs[..|xs| - 1], zs[..|xs| - 1]);
    }
  }

  lemma {:induction false} SizesOfMetricsAt(xs: seq<Metric>, zs: seq<MetricSizes>, i: nat)
    requires SizesOfMetrics(xs, zs) && i < |xs|
    ensures SizesOfMetric(xs[i], zs[i])
  {
    if i < |xs| - 1 {
      SizesOfMetricsAt(xs[..|xs| - 1], zs[..|xs| - 1], i);
    }
  }

  method ComputeNext(xs: seq<Metric>, i: nat, items: seq<MetricSizes>, ghost lens: seq<u32>)
    returns (len: u32, items': seq<MetricSizes>)
    requires i < |xs| && Lengths(xs, METRIC_CODEC, lens) && SizesOfMetrics(xs[..i], items)
    ensures len == lens[i] && SizesOfMetrics(xs[..i + 1], items') && |items'| == i + 1
  {
    LengthsAt(xs, METRIC_CODEC, lens, i);
    var z := ComputeMetricSize(xs[i]);
    len, items' := z.total, items + [z];
    assert xs[..i + 1][..i] == xs[..i] && items'[..i] == items;
  }

  method SumMetrics(xs: seq<Metric>, ghost lens: seq<u32>) returns (size: u32, items: seq<MetricSizes>)
    requires Lengths(xs, METRIC_CODEC, lens) && TotalSize(lens) < TWO32
    ensures size == TotalSize(lens) && SizesOfMetrics(xs, items)
  {
    size, items := 0, [];
    for i := 0 to |xs|
      invariant |items| == i && size == TotalSize(lens[..i]) && SizesOfMetrics(xs[..i], items)
    {
      TotalSizePrefix(lens, i);
      var len;
      len, items := ComputeNext(xs, i, items, lens);
      size := AddNested(size, len, TotalSize(lens[..i + 1]));
    }
    assert lens[..|xs|] == lens && xs[..|xs|] == xs;
  }

  method SizeOfMetrics(xs: seq<Metric>, ghost bs: seq<byte>) returns (size: u32, items: seq<MetricSizes>)
    requires bs == EncodeFields(RepeatedField(4, xs, METRIC_CODEC)) && |bs| < TWO32
    ensures size == |bs| && |items| == |xs|
    ensures forall j :: 0 <= j < |xs| ==> SizesOfMetric(xs[j], items[j])
  {
    ghost var lens := ItemLengths(4, xs, METRIC_CODEC, bs);
    size, items := SumMetrics(xs, lens);
    forall j | 0 <= j < |xs| ensures SizesOfMetric(xs[j], items[j]) {
      SizesOfMetricsAt(xs, items, j);
    }
  }

  method ComputeFamilySize(m: MetricFamily) returns (z: FamilySizes)
    requires |FamilyBytes(m)| < TWO32
    ensures SizesOfFamily(m, z)
  {
    ghost var a, b, c, d := FamilySplit(m);
    assert |FamilyBytes(m)| == |a| + |b| + |c| + |d|;
    var mySize: u32 := 0;
    var aSize := SizeOfString(1, m.name, a);
    NoWrap(mySize, aSize);
    mySize := AddU32(mySize, aSize);
    var bSize := SizeOfString(2, m.help, b);
    NoWrap(mySize, bSize);
    mySize := AddU32(mySize, bSize);
    var cSize := SizeOfU64(3, TypeBits(m), c);
    NoWrap(mySize, cSize);
    mySize := AddU32(mySize, cSize);
    var dSize, metric := SizeOfMetrics(m.metric, d);
    NoWrap(mySize, dSize);
    mySize := AddU32(mySize, dSize);
    z := FamilySizes(mySize, metric);
  }

  // ---- write_to_with_cached_sizes -------------------------------------------------------------------------

  method WriteOptionalString(number: nat, s: Option<string>, os: CodedOutputStream,
                             ghost o: seq<byte>, ghost w: seq<byte>, ghost bs: seq<byte>)
    requires os.buf == o + w
    requires bs == EncodeFields(StringField(number, s))
    modifies os
    ensures os.buf == o + (w + bs)
  {
    Associate(o, w, bs);
    if s.Some? {
      os.WriteString(number, s.value);
      EncodeOne(StringField(number, s)[0]);
    }
  }

  method WriteOptionalDouble(number: nat, v: Option<u64>, os: CodedOutputStream,
                             ghost o: seq<byte>, ghost w: seq<byte>, ghost bs: seq<byte>)
    requires os.buf == o + w
    requires bs == EncodeFields(DoubleField(number, v))
    modifies os
    ensures os.buf == o + (w + bs)
  {
    Associate(o, w, bs);
    if v.Some? {
      os.WriteDouble(number, v.value);
      EncodeOne(DoubleField(number, v)[0]);
    }
  }

  method WriteOptionalU64(number: nat, v: Option<u64>, os: CodedOutputStream,
                          ghost o: seq<byte>, ghost w: seq<byte>, ghost bs: seq<byte>)
    requires os.buf == o + w
    requires bs == EncodeFields(U64Field(number, v))
    modifies os
    ensures os.buf == o + (w + bs)
  {
    Associate(o, w, bs);
    if v.Some? {
      os.WriteUint64(number, v.value);
      EncodeOne(U64Field(number, v)[0]);
    }
  }

  /** The tag and the length prefix before a nested message of `len` bytes. */
  function Header(number: nat, len: nat): seq<byte> {
    EncodeTag(number, 2) + EncodeVarint(len)
  }

  lemma HeaderThenBody(number: nat, bs: seq<byte>)
    ensures EncodeField(Field(number, Bytes(bs))) == Header(number, |bs|) + bs
  {
  }

  method WriteHeader(number: nat, len: nat, os: CodedOutputStream)
    modifies os
    ensures os.buf == old(os.buf) + Header(number, len)
  {
    os.WriteTag(number, 2);
    os.WriteRawVarint(len);
  }

  lemma RepeatedWritten<M>(number: nat, xs: seq<M>, codec: Codec<M>, i: nat, len: nat)
    requires i < |xs| && len == |codec.bytes(xs[i])|
    ensures EncodeFields(RepeatedField(number, xs[..i + 1], codec))
         == EncodeFields(RepeatedField(number, xs[..i], codec)) + (Header(number, len) + codec.bytes(xs[i]))
  {
    RepeatedNext(number, xs, codec, i);
    HeaderThenBody(number, codec.bytes(xs[i]));
  }

  lemma AppendItem<M>(before: seq<byte>, number: nat, xs: seq<M>, codec: Codec<M>, i: nat, len: nat)
    requires i < |xs| && len == |codec.bytes(xs[i])|
    ensures before + EncodeFields(RepeatedField(number, xs[..i], codec)) + Header(number, len) + codec.bytes(xs[i])
         == before + EncodeFields(RepeatedField(number, xs[..i + 1], codec))
  {
    var done, header, body := EncodeFields(RepeatedField(number, xs[..i], codec)), Header(number, len), codec.bytes(xs[i]);
    RepeatedWritten(number, xs, codec, i, len);
    Associate(before + done, header, body);
    Associate(before, done, header + body);
  }

  lemma MessageWritten<M>(number: nat, m: Option<M>, codec: Codec<M>)
    ensures EncodeFields(MessageField(number, m, codec))
         == if m.None? then [] else Header(number, |codec.bytes(m.value)|) + codec.bytes(m.value)
  {
    if m.Some? {
      EncodeOne(MessageField(number, m, codec)[0]);
      HeaderThenBody(number, codec.bytes(m.value));
    }
  }

  method WriteLabel(m: LabelPair, os: CodedOutputStream)
    modifies os
    ensures os.buf == old(os.buf) + LabelBytes(m)
  {
    ghost var o := os.buf;
    ghost var a, b := LabelSplit(m);
    Associate(o, [], []);
    WriteOptionalString(1, m.name, os, o, [], a);
    WriteOptionalString(2, m.value, os, o, [] + a, b);
  }

  method WriteNumber(m: Number, os: CodedOutputStream)
    modifies os
    ensures os.buf == old(os.buf) + NumberBytes(m)
  {
    ghost var o := os.buf;
    ghost var a := NumberSplit(m);
    Associate(o, [], []);
    WriteOptionalDouble(1, m.value, os, o, [], a);
  }

  method WriteQuantile(m: Quantile, os: CodedOutputStream)
    modifies os
    ensures os.buf == old(os.buf) + QuantileBytes(m)
  {
    ghost var o := os.buf;
    ghost var a, b := QuantileSplit(m);
    Associate(o, [], []);
    WriteOptionalDouble(1, m.quantile, os, o, [], a);
    WriteOptionalDouble(2, m.value, os, o, [] + a, b);
  }

  method WriteBucket(m: Bucket, os: CodedOutputStream)
    modifies os
    ensures os.buf == old(os.buf) + BucketBytes(m)
  {
    ghost var o := os.buf;
    ghost var a, b := BucketSplit(m);
    Associate(o, [], []);
    WriteOptionalU64(1, m.cumulativeCount, os, o, [], a);
    WriteOptionalDouble(2, m.upperBound, os, o, [] + a, b);
  }

  method WriteNextQuantile(xs: seq<Quantile>, i: nat, items: seq<u32>, os: CodedOutputStream, ghost before: seq<byte>)
    requires i < |xs| && Lengths(xs, QUANTILE_CODEC, items)
    requires os.buf == before + EncodeFields(RepeatedField(3, xs[..i], QUANTILE_CODEC))
    modifies os
    ensures os.buf == before + EncodeFields(RepeatedField(3, xs[..i + 1], QUANTILE_CODEC))
  {
    LengthsAt(xs, QUANTILE_CODEC, items, i);
    AppendItem(before, 3, xs, QUANTILE_CODEC, i, items[i]);
    WriteHeader(3, items[i], os);
    WriteQuantile(xs[i], os);
  }

  method WriteQuantiles(xs: seq<Quantile>, items: seq<u32>, os: CodedOutputStream,
                        ghost o: seq<byte>, ghost w: seq<byte>, ghost bs: seq<byte>)
    requires os.buf == o + w
    requires bs == EncodeFields(RepeatedField(3, xs, QUANTILE_CODEC)) && Lengths(xs, QUANTILE_CODEC, items)
    modifies os
    ensures os.buf == o + (w + bs)
  {
    Associate(o, w, bs);
    ghost var before := o + w;
    Associate(before, [], []);
    for i := 0 to |xs|
      invariant os.buf == before + EncodeFields(RepeatedField(3, xs[..i], QUANTILE_CODEC))
    {
      WriteNextQuantile(xs, i, items, os, before);
    }
    assert xs[..|xs|] == xs;
  }

  method WriteSummary(m: Summary, z: ListSizes, os: CodedOutputStream)
    requires SizesOfSummary(m, z)
    modifies os
    ensures os.buf == old(os.buf) + SummaryBytes(m)
  {
    ghost var o := os.buf;
    ghost var a, b, c := SummarySplit(m);
    Associate(o, [], []);
    WriteOptionalU64(1, m.sampleCount, os, o, [], a);
    WriteOptionalDouble(2, m.sampleSum, os, o, [] + a, b);
    LengthsAll(m.quantile, QUANTILE_CODEC, z.items);
    WriteQuantiles(m.quantile, z.items, os, o, [] + a + b, c);
  }

  method WriteNextBucket(xs: seq<Bucket>, i: nat, items: seq<u32>, os: CodedOutputStream, ghost before: seq<byte>)
    requires i < |xs| && Lengths(xs, BUCKET_CODEC, items)
    requires os.buf == before + EncodeFields(RepeatedField(3, xs[..i], BUCKET_CODEC))
    modifies os
    ensures os.buf == before + EncodeFields(RepeatedField(3, xs[..i + 1], BUCKET_CODEC))
  {
    LengthsAt(xs, BUCKET_CODEC, items, i);
    AppendItem(before, 3, xs, BUCKET_CODEC, i, items[i]);
    WriteHeader(3, items[i], os);
    WriteBucket(xs[i], os);
  }

  method WriteBuckets(xs: seq<Bucket>, items: seq<u32>, os: CodedOutputStream,
                      ghost o: seq<byte>, ghost w: seq<byte>, ghost bs: seq<byte>)
    requires os.buf == o + w
    requires bs == EncodeFields(RepeatedField(3, xs, BUCKET_CODEC)) && Lengths(xs, BUCKET_CODEC, items)
    modifies os
    ensures os.buf == o + (w + bs)
  {
    Associate(o, w, bs);
    ghost var before := o + w;
    Associate(before, [], []);
    for i := 0 to |xs|
      invariant os.buf == before + EncodeFields(RepeatedField(3, xs[..i], BUCKET_CODEC))
    {
      WriteNextBucket(xs, i, items, os, before);
    }
    assert xs[..|xs|] == xs;
  }

  method WriteHistogram(m: Histogram, z: ListSizes, os: CodedOutputStream)
    requires SizesOfHistogram(m, z)
    modifies os
    ensures os.buf == old(os.buf) + HistogramBytes(m)
  {
    ghost var o := os.buf;
    ghost var a, b, c := HistogramSplit(m);
    Associate(o, [], []);
    WriteOptionalU64(1, m.sampleCount, os, o, [], a);
    WriteOptionalDouble(2, m.sampleSum, os, o, [] + a, b);
    LengthsAll(m.bucket, BUCKET_CODEC, z.items);
    WriteBuckets(m.bucket, z.items, os, o, [] + a + b, c);
  }

  method WriteOptionalNumber(number: nat, m: Option<Number>, z: u32, os: CodedOutputStream,
                             ghost o: seq<byte>, ghost w: seq<byte>, ghost bs: seq<byte>)
    requires os.buf == o + w
    requires bs == EncodeFields(MessageField(number, m, NUMBER_CODEC)) && (m.Some? ==> z == |NumberBytes(m.value)|)
    modifies os
    ensures os.buf == o + (w + bs)
  {
    Associate(o, w, bs);
    MessageWritten(number, m, NUMBER_CODEC);
    if m.Some? {
      Associate(o + w, Header(number, z), NumberBytes(m.value));
      WriteHeader(number, z, os);
      WriteNumber(m.value, os);
    }
  }

  method WriteOptionalSummary(number: nat, m: Option<Summary>, z: ListSizes, os: CodedOutputStream,
                              ghost o: seq<byte>, ghost w: seq<byte>, ghost bs: seq<byte>)
    requires os.buf == o + w
    requires bs == EncodeFields(MessageField(number, m, SUMMARY_CODEC)) && (m.Some? ==> SizesOfSummary(m.value, z))
    modifies os
    ensures os.buf == o + (w + bs)
  {
    Associate(o, w, bs);
    MessageWritten(number, m, SUMMARY_CODEC);
    if m.Some? {
      Associate(o + w, Header(number, z.total), SummaryBytes(m.value));
      WriteHeader(number, z.total, os);
      WriteSummary(m.value, z, os);
    }
  }

  method WriteOptionalHistogram(number: nat, m: Option<Histogram>, z: ListSizes, os: CodedOutputStream,
                                ghost o: seq<byte>, ghost w: seq<byte>, ghost bs: seq<byte>)
    requires os.buf == o + w
    requires bs == EncodeFields(MessageField(number, m, HISTOGRAM_CODEC)) && (m.Some? ==> SizesOfHistogram(m.value, z))
    modifies os
    ensures os.buf == o + (w + bs)
  {
    Associate(o, w, bs);
    MessageWritten(number, m, HISTOGRAM_CODEC);
    if m.Some? {
      Associate(o + w, Header(number, z.total), HistogramBytes(m.value));
      WriteHeader(number, z.total, os);
      WriteHistogram(m.value, z, os);
    }
  }

  method WriteNextLabel(xs: seq<LabelPair>, i: nat, items: seq<u32>, os: CodedOutputStream, ghost before: seq<byte>)
    requires i < |xs| && Lengths(xs, LABEL_CODEC, items)
    requires os.buf == before + EncodeFields(RepeatedField(1, xs[..i], LABEL_CODEC))
    modifies os
    ensures os.buf == before + EncodeFields(RepeatedField(1, xs[..i + 1], LABEL_CODEC))
  {
    LengthsAt(xs, LABEL_CODEC, items, i);
    AppendItem(before, 1, xs, LABEL_CODEC, i, items[i]);
    WriteHeader(1, items[i], os);
    WriteLabel(xs[i], os);
  }

  method WriteLabels(xs: seq<LabelPair>, items: seq<u32>, os: CodedOutputStream,
                     ghost o: seq<byte>, ghost w: seq<byte>, ghost bs: seq<byte>)
    requires os.buf == o + w
    requires bs == EncodeFields(RepeatedField(1, xs, LABEL_CODEC)) && Lengths(xs, LABEL_CODEC, items)
    modifies os
    ensures os.buf == o + (w + bs)
  {
    Associate(o, w, bs);
    ghost var before := o + w;
    Associate(before, [], []);
    for i := 0 to |xs|
      invariant os.buf == before + EncodeFields(RepeatedField(1, xs[..i], LABEL_CODEC))
    {
      WriteNextLabel(xs, i, items, os, before);
    }
    assert xs[..|xs|] == xs;
  }

  method WriteMetric(m: Metric, z: MetricSizes, os: CodedOutputStream)
    requires SizesOfMetric(m, z)
    modifies os
    ensures os.buf == old(os.buf) + MetricBytes(m)
  {
    ghost var o := os.buf;
    ghost var a, b, c, d, e, f, g := MetricSplit(m);
    Associate(o, [], []);
    LengthsAll(m.labels, LABEL_CODEC, z.labels);
    WriteLabels(m.labels, z.labels, os, o, [], a);
    WriteOptionalNumber(2, m.gauge, z.gauge, os, o, [] + a, b);
    WriteOptionalNumber(3, m.counter, z.counter, os, o, [] + a + b, c);
    WriteOptionalSummary(4, m.summary, z.summary, os, o, [] + a + b + c, d);
    WriteOptionalNumber(5, m.untyped, z.untyped, os, o, [] + a + b + c + d, e);
    WriteOptionalHistogram(7, m.histogram, z.histogram, os, o, [] + a + b + c + d + e, f);
    WriteOptionalU64(6, StampBits(m), os, o, [] + a + b + c + d + e + f, g);
  }

  method WriteNextMetric(xs: seq<Metric>, i: nat, items: seq<MetricSizes>, os: CodedOutputStream, ghost before: seq<byte>)
    requires i < |xs| && SizesOfMetrics(xs, items)
    requires os.buf == before + EncodeFields(RepeatedField(4, xs[..i], METRIC_CODEC))
    modifies os
    ensures os.buf == before + EncodeFields(RepeatedField(4, xs[..i + 1], METRIC_CODEC))
  {
    SizesOfMetricsAt(xs, items, i);
    AppendItem(before, 4, xs, METRIC_CODEC, i, items[i].total);
    WriteHeader(4, items[i].total, os);
    WriteMetric(xs[i], items[i], os);
  }

  method WriteMetrics(xs: seq<Metric>, items: seq<MetricSizes>, os: CodedOutputStream,
                      ghost o: seq<byte>, ghost w: seq<byte>, ghost bs: seq<byte>)
    requires os.buf == o + w
    requires bs == EncodeFields(RepeatedField(4, xs, METRIC_CODEC)) && SizesOfMetrics(xs, items)
    modifies os
    ensures os.buf == o + (w + bs)
  {
    Associate(o, w, bs);
    ghost var before := o + w;
    Associate(before, [], []);
    for i := 0 to |xs|
      invariant os.buf == before + EncodeFields(RepeatedField(4, xs[..i], METRIC_CODEC))
    {
      WriteNextMetric(xs, i, items, os, before);
    }
    assert xs[..|xs|] == xs;
  }

  method WriteFamily(m: MetricFamily, z: FamilySizes, os: CodedOutputStream)
    requires SizesOfFamily(m, z)
    modifies os
    ensures os.buf == old(os.buf) + FamilyBytes(m) && |os.buf| == |old(os.buf)| + z.total
  {
    ghost var o := os.buf;
    ghost var a, b, c, d := FamilySplit(m);
    Associate(o, [], []);
    WriteOptionalString(1, m.name, os, o, [], a);
    WriteOptionalString(2, m.help, os, o, [] + a, b);
    WriteOptionalU64(3, TypeBits(m), os, o, [] + a + b, c);
    SizesOfMetricsAll(m.metric, z.metric);
    WriteMetrics(m.metric, z.metric, os, o, [] + a + b + c, d);
  }
}
