/**
 The messages' bytes against the schema, tag by tag, with nothing taken from how they are written: a tag is
 eight times the field's number in proto/proto_model.proto, plus the wire type of the field's type.
 */
module ProtoSchema {
  import opened Integers
  import opened Wrappers
  import opened Utf8
  import opened Wire
  import opened ProtoModel
  import opened ProtoWriter

  // ---- Numbers and texts -------------------------------------------------------------------------------------

  /** Groups of seven bits, the lowest first. */
  function Groups(bs: seq<byte>): nat {
    if bs == [] then 0 else bs[0] % 128 + 128 * Groups(bs[1..])
  }

  /** A varint is the number's groups, all but the last with the top bit set, and none too many. */
  lemma {:induction false} VarintTells(n: nat)
    ensures var bs := EncodeVarint(n);
            && Groups(bs) == n
            && (forall i :: 0 <= i < |bs| - 1 ==> bs[i] >= 128)
            && bs[|bs| - 1] < 128 && (n > 0 ==> bs[|bs| - 1] > 0)
  {
    if n >= 128 {
      VarintTells(n / 128);
      var bs := EncodeVarint(n);
      assert bs[1..] == EncodeVarint(n / 128);
      assert (128 + n % 128) % 128 == n % 128;
    } else {
      assert [n][1..] == [];
    }
  }

  predicate EndsAt(bs: seq<byte>, i: nat) {
    i < |bs| && bs[i] < 128 && forall j :: 0 <= j < i ==> bs[j] >= 128
  }

  lemma {:induction false} DecodeVarintTells(bs: seq<byte>, k: nat, i: nat)
    ensures EndsAt(bs, i) ==> DecodeVarint(bs, k) == if i < k then Some((Groups(bs[..i + 1]), bs[i + 1..])) else None
    ensures (forall j: nat :: j < k ==> !EndsAt(bs, j)) ==> DecodeVarint(bs, k) == None
    decreases k
  {
    if k > 0 && bs != [] {
      if bs[0] < 128 {
        assert EndsAt(bs, 0);
        assert [bs[0]][1..] == [] && bs[..1] == [bs[0]];
      } else {
        DecodeVarintTells(bs[1..], k - 1, if i > 0 then i - 1 else 0);
        if EndsAt(bs, i) {
          assert EndsAt(bs[1..], i - 1);
          assert bs[..i + 1][1..] == bs[1..][..i] && bs[1..][i..] == bs[i + 1..];
        }
        forall j: nat | EndsAt(bs[1..], j) ensures EndsAt(bs, j + 1) {
          assert forall l :: 0 < l < j + 1 ==> bs[l] == bs[1..][l - 1];
        }
      }
    }
  }

  /** Any varint of up to ten bytes is read, one that is longer than needed too, and its groups make up 64 bits. */
  lemma ReadVarintTells(bs: seq<byte>, i: nat)
    requires EndsAt(bs, i)
    ensures DecodeU64(bs) == if i < 10 then Some((Groups(bs[..i + 1]) % 0x1_0000_0000_0000_0000, bs[i + 1..])) else None
  {
    DecodeVarintTells(bs, MAX_VARINT, i);
  }

  /** Bytes, the lowest first. */
  function Little(bs: seq<byte>): nat {
    if bs == [] then 0 else bs[0] + 256 * Little(bs[1..])
  }

  lemma {:induction false} FixedTells(n: nat, k: nat)
    requires n < Power256(k)
    ensures |EncodeFixed(n, k)| == k && Little(EncodeFixed(n, k)) == n
  {
    if k > 0 {
      FixedTells(n / 256, k - 1);
      assert EncodeFixed(n, k)[1..] == EncodeFixed(n / 256, k - 1);
    }
  }

  /** RFC 3629, section 3: one to four bytes, with 7, 5 + 6, 4 + 6 + 6 or 3 + 6 + 6 + 6 bits of the character. */
  lemma CharTells(c: char)
    ensures var n, bs := c as int, EncodeChar(c);
            if n < 0x80 then bs == [n]
            else if n < 0x800 then
              && |bs| == 2 && 0xC0 <= bs[0] < 0xE0 && 0x80 <= bs[1] < 0xC0
              && n == (bs[0] as int - 0xC0) * 64 + (bs[1] as int - 0x80)
            else if n < 0x1_0000 then
              && |bs| == 3 && 0xE0 <= bs[0] < 0xF0 && 0x80 <= bs[1] < 0xC0 && 0x80 <= bs[2] < 0xC0
              && n == (bs[0] as int - 0xE0) * 4096 + (bs[1] as int - 0x80) * 64 + (bs[2] as int - 0x80)
            else
              && |bs| == 4 && 0xF0 <= bs[0] < 0xF8
              && 0x80 <= bs[1] < 0xC0 && 0x80 <= bs[2] < 0xC0 && 0x80 <= bs[3] < 0xC0
              && n == (bs[0] as int - 0xF0) * 262144 + (bs[1] as int - 0x80) * 4096
                      + (bs[2] as int - 0x80) * 64 + (bs[3] as int - 0x80)
  {
    var n := c as int;
    assert n == n / 64 * 64 + n % 64;
    assert n / 64 == n / 64 / 64 * 64 + n / 64 % 64;
  }

  // ---- Fields, by the byte of their tag ---------------------------------------------------------------------------

  /** A length-delimited field: its tag, its length, its bytes. */
  function Chunk(tag: byte, bs: seq<byte>): seq<byte> {
    [tag] + (EncodeVarint(|bs|) + bs)
  }

  function Text(tag: byte, s: Option<string>): seq<byte> {
    if s.None? then [] else Chunk(tag, Encode(s.value))
  }

  function Double(tag: byte, v: Option<u64>): seq<byte> {
    if v.None? then [] else [tag] + EncodeFixed(v.value, 8)
  }

  function Number(tag: byte, v: Option<u64>): seq<byte> {
    if v.None? then [] else [tag] + EncodeVarint(v.value)
  }

  function Nested<M>(tag: byte, m: Option<M>, bytes: M -> seq<byte>): seq<byte> {
    if m.None? then [] else Chunk(tag, bytes(m.value))
  }

  function Repeated<M>(tag: byte, ms: seq<M>, bytes: M -> seq<byte>): seq<byte> {
    if ms == [] then [] else Repeated(tag, ms[..|ms| - 1], bytes) + Chunk(tag, bytes(ms[|ms| - 1]))
  }

  /** The type's number in the schema. */
  function TypeCode(t: Option<MetricType>): seq<byte> {
    match t
    case None => []
    case Some(COUNTER) => [0x18, 0]
    case Some(GAUGE) => [0x18, 1]
    case Some(SUMMARY) => [0x18, 2]
    case Some(UNTYPED) => [0x18, 3]
    case Some(HISTOGRAM) => [0x18, 4]
  }

  /** Two's complement in 64 bits. */
  function Stamp(tag: byte, ts: Option<i64>): seq<byte> {
    if ts.None? then []
    else [tag] + EncodeVarint(if ts.value < 0 then 0x1_0000_0000_0000_0000 + ts.value else ts.value)
  }

  // ---- The messages --------------------------------------------------------------------------------------------------

  lemma LabelBytesAre(m: LabelPair)
    ensures LabelBytes(m) == Text(0x0A, m.name) + Text(0x12, m.value)
  {
    var a, b := LabelSplit(m);
    TextIs(1, m.name);
    TextIs(2, m.value);
    NothingBefore(a);
  }

  lemma NumberBytesAre(m: ProtoModel.Number)
    ensures NumberBytes(m) == Double(0x09, m.value)
  {
    var a := NumberSplit(m);
    DoubleIs(1, m.value);
    NothingBefore(a);
  }

  lemma QuantileBytesAre(m: Quantile)
    ensures QuantileBytes(m) == Double(0x09, m.quantile) + Double(0x11, m.value)
  {
    var a, b := QuantileSplit(m);
    DoubleIs(1, m.quantile);
    DoubleIs(2, m.value);
    NothingBefore(a);
  }

  lemma BucketBytesAre(m: Bucket)
    ensures BucketBytes(m) == Number(0x08, m.cumulativeCount) + Double(0x11, m.upperBound)
  {
    var a, b := BucketSplit(m);
    NumberIs(1, m.cumulativeCount);
    DoubleIs(2, m.upperBound);
    NothingBefore(a);
  }

  lemma SummaryBytesAre(m: Summary)
    ensures SummaryBytes(m)
         == Number(0x08, m.sampleCount) + Double(0x11, m.sampleSum) + Repeated(0x1A, m.quantile, QuantileBytes)
  {
    var a, b, c := SummarySplit(m);
    NumberIs(1, m.sampleCount);
    DoubleIs(2, m.sampleSum);
    RepeatedIs(3, m.quantile, QUANTILE_CODEC);
    NothingBefore(a);
  }

  lemma HistogramBytesAre(m: Histogram)
    ensures HistogramBytes(m)
         == Number(0x08, m.sampleCount) + Double(0x11, m.sampleSum) + Repeated(0x1A, m.bucket, BucketBytes)
  {
    var a, b, c := HistogramSplit(m);
    NumberIs(1, m.sampleCount);
    DoubleIs(2, m.sampleSum);
    RepeatedIs(3, m.bucket, BUCKET_CODEC);
    NothingBefore(a);
  }

  lemma MetricBytesAre(m: Metric)
    ensures MetricBytes(m)
         == Repeated(0x0A, m.labels, LabelBytes) + Nested(0x12, m.gauge, NumberBytes) + Nested(0x1A, m.counter, NumberBytes)
            + Nested(0x22, m.summary, SummaryBytes) + Nested(0x2A, m.untyped, NumberBytes)
            + Nested(0x3A, m.histogram, HistogramBytes) + Stamp(0x30, m.timestampMs)
  {
    var a, b, c, d, e, f, g := MetricSplit(m);
    RepeatedIs(1, m.labels, LABEL_CODEC);
    NestedIs(2, m.gauge, NUMBER_CODEC);
    NestedIs(3, m.counter, NUMBER_CODEC);
    NestedIs(4, m.summary, SUMMARY_CODEC);
    NestedIs(5, m.untyped, NUMBER_CODEC);
    NestedIs(7, m.histogram, HISTOGRAM_CODEC);
    StampIs(m);
    NothingBefore(a);
  }

  lemma FamilyBytesAre(m: MetricFamily)
    ensures FamilyBytes(m)
         == Text(0x0A, m.name) + Text(0x12, m.help) + TypeCode(m.fieldType) + Repeated(0x22, m.metric, MetricBytes)
  {
    var a, b, c, d := FamilySplit(m);
    TextIs(1, m.name);
    TextIs(2, m.help);
    TypeIs(m);
    RepeatedIs(4, m.metric, METRIC_CODEC);
    NothingBefore(a);
  }

  // ---- Field by field --------------------------------------------------------------------------------------------------

  lemma NothingBefore(a: seq<byte>)
    ensures [] + a == a
  {
  }

  lemma TextIs(number: nat, s: Option<string>)
    requires 0 < number < 16
    ensures EncodeFields(StringField(number, s)) == Text(8 * number + 2, s)
  {
    if s.Some? {
      EncodeOne(StringField(number, s)[0]);
    }
  }

  lemma DoubleIs(number: nat, v: Option<u64>)
    requires 0 < number < 16
    ensures EncodeFields(DoubleField(number, v)) == Double(8 * number + 1, v)
  {
    if v.Some? {
      EncodeOne(DoubleField(number, v)[0]);
    }
  }

  lemma NumberIs(number: nat, v: Option<u64>)
    requires 0 < number < 16
    ensures EncodeFields(U64Field(number, v)) == Number(8 * number, v)
  {
    if v.Some? {
      EncodeOne(U64Field(number, v)[0]);
    }
  }

  lemma TypeIs(m: MetricFamily)
    ensures EncodeFields(U64Field(3, TypeBits(m))) == TypeCode(m.fieldType)
  {
    NumberIs(3, TypeBits(m));
    if m.fieldType.Some? {
      var n := TypeValue(m.fieldType.value);
      assert EncodeVarint(n) == [n];
    }
  }

  lemma StampIs(m: Metric)
    ensures EncodeFields(U64Field(6, StampBits(m))) == Stamp(0x30, m.timestampMs)
  {
    NumberIs(6, StampBits(m));
  }

  lemma ChunkIs(number: nat, bs: seq<byte>)
    requires 0 < number < 16
    ensures EncodeField(Field(number, Bytes(bs))) == Chunk(8 * number + 2, bs)
  {
  }

  lemma NestedIs<M>(number: nat, m: Option<M>, codec: Codec<M>)
    requires 0 < number < 16
    ensures EncodeFields(MessageField(number, m, codec)) == Nested(8 * number + 2, m, codec.bytes)
  {
    if m.Some? {
      EncodeOne(MessageField(number, m, codec)[0]);
      ChunkIs(number, codec.bytes(m.value));
    }
  }

  lemma {:induction false} RepeatedIs<M>(number: nat, ms: seq<M>, codec: Codec<M>)
    requires 0 < number < 16
    ensures EncodeFields(RepeatedField(number, ms, codec)) == Repeated(8 * number + 2, ms, codec.bytes)
  {
    if ms != [] {
      var k := |ms| - 1;
      RepeatedIs(number, ms[..k], codec);
      RepeatedNext(number, ms, codec, k);
      ChunkIs(number, codec.bytes(ms[k]));
      assert ms[..k + 1] == ms;
    }
  }

  // ---- Reading -----------------------------------------------------------------------------------------------------------

  /** The numbers of the types, and no others. */
  lemma TypeTells(n: u64)
    ensures n == 0 ==> TypeFrom(n) == Some(COUNTER)
    ensures n == 1 ==> TypeFrom(n) == Some(GAUGE)
    ensures n == 2 ==> TypeFrom(n) == Some(SUMMARY)
    ensures n == 3 ==> TypeFrom(n) == Some(UNTYPED)
    ensures n == 4 ==> TypeFrom(n) == Some(HISTOGRAM)
    ensures 5 <= n < 0x1_0000_0000 ==> TypeFrom(n) == None
  {
  }

  // The wire type that the schema gives each field number of a message.

  function LabelWants(n: nat): Option<nat> {
    if n == 1 || n == 2 then Some(2) else None
  }

  function NumberWants(n: nat): Option<nat> {
    if n == 1 then Some(1) else None
  }

  function QuantileWants(n: nat): Option<nat> {
    if n == 1 || n == 2 then Some(1) else None
  }

  function BucketWants(n: nat): Option<nat> {
    if n == 1 then Some(0) else if n == 2 then Some(1) else None
  }

  /** Summaries and histograms. */
  function SpreadWants(n: nat): Option<nat> {
    if n == 1 then Some(0) else if n == 2 then Some(1) else if n == 3 then Some(2) else None
  }

  function MetricWants(n: nat): Option<nat> {
    if n == 6 then Some(0) else if 1 <= n <= 7 then Some(2) else None
  }

  function FamilyWants(n: nat): Option<nat> {
    if n == 3 then Some(0) else if 1 <= n <= 4 then Some(2) else None
  }

  /** Fields the schema does not have are passed over, and those it has are refused in another wire type. */
  ghost predicate Obeys<M(!new)>(apply: (M, Field) -> Option<M>, wants: nat -> Option<nat>) {
    forall m: M, f: Field ::
      match wants(f.number)
      case None => apply(m, f) == Some(m)
      case Some(wireType) => wireType != WireType(f.value) ==> apply(m, f) == None
  }

  function Wanted(wants: nat -> Option<nat>): nat -> bool {
    (n: nat) => wants(n).Some?
  }

  /** Foreign fields make no difference to a message, wherever they are. */
  lemma ForeignPassedOver<M(!new)>(apply: (M, Field) -> Option<M>, wants: nat -> Option<nat>, m: M, fs: seq<Field>)
    requires Obeys(apply, wants) && AllWritable(fs)
    ensures MergeBytes(apply, m, EncodeFields(fs)) == ApplyAll(apply, m, Known(Wanted(wants), fs))
  {
    MergeEncoded(apply, m, fs);
    forall m': M, f: Field | !Wanted(wants)(f.number) ensures apply(m', f) == Some(m') {
      assert wants(f.number) == None;
    }
    PassesOver(apply, Wanted(wants), m, fs);
  }

  /** A message with a field in the wrong wire type, wherever it is, is refused as a whole. */
  lemma MisfitRefusesAll<M(!new)>(apply: (M, Field) -> Option<M>, wants: nat -> Option<nat>, m: M, fs: seq<Field>, i: nat)
    requires Obeys(apply, wants) && AllWritable(fs) && i < |fs| && Misfit(wants, fs[i])
    ensures MergeBytes(apply, m, EncodeFields(fs)) == None
  {
    MergeEncoded(apply, m, fs);
    MisfitRefused(apply, wants, m, fs, i);
  }

  predicate Misfit(wants: nat -> Option<nat>, f: Field) {
    wants(f.number).Some? && wants(f.number).value != WireType(f.value)
  }

  lemma {:induction false} MisfitRefused<M(!new)>(apply: (M, Field) -> Option<M>, wants: nat -> Option<nat>, m: M,
                                                  fs: seq<Field>, i: nat)
    requires Obeys(apply, wants) && i < |fs| && Misfit(wants, fs[i])
    ensures ApplyAll(apply, m, fs) == None
    decreases |fs|
  {
    if i > 0 && apply(m, fs[0]).Some? {
      MisfitRefused(apply, wants, apply(m, fs[0]).value, fs[1..], i - 1);
    }
  }

  // Fields in any order, and more than once.

  function Then<M>(apply: (M, Field) -> Option<M>, r: Option<M>, f: Field): Option<M> {
    match r
    case None => None
    case Some(m) => apply(m, f)
  }

  ghost predicate Swap<M>(apply: (M, Field) -> Option<M>, m: M, f: Field, g: Field) {
    f.number != g.number ==> Then(apply, apply(m, f), g) == Then(apply, apply(m, g), f)
  }

  ghost predicate Replaces<M>(apply: (M, Field) -> Option<M>, m: M, f: Field, g: Field) {
    f.number == g.number && apply(m, f).Some? ==> Then(apply, apply(m, f), g) == apply(m, g)
  }

  /** Fields of different numbers do not affect each other. */
  ghost predicate Independent<M(!new)>(apply: (M, Field) -> Option<M>) {
    forall m: M, f: Field, g: Field :: Swap(apply, m, f, g)
  }

  /** Of two fields of one of these numbers, the later one counts. */
  ghost predicate LaterCounts<M(!new)>(apply: (M, Field) -> Option<M>, numbers: set<nat>) {
    forall m: M, f: Field, g: Field :: f.number in numbers ==> Replaces(apply, m, f, g)
  }

  lemma ApplyTwo<M>(apply: (M, Field) -> Option<M>, m: M, f: Field, g: Field)
    ensures ApplyAll(apply, m, [f, g]) == Then(apply, apply(m, f), g)
  {
    assert [f, g][1..] == [g];
    if apply(m, f).Some? {
      ApplyOne(apply, apply(m, f).value, g);
    }
  }

  /** Exchanging neighbouring fields of different numbers, wherever they are, makes no difference to what is read. */
  lemma OrderIrrelevant<M(!new)>(apply: (M, Field) -> Option<M>, m: M, a: seq<Field>, f: Field, g: Field, b: seq<Field>)
    requires Independent(apply) && f.number != g.number && AllWritable(a + [f, g] + b)
    ensures MergeBytes(apply, m, EncodeFields(a + [f, g] + b)) == MergeBytes(apply, m, EncodeFields(a + [g, f] + b))
  {
    var fs, gs := a + [f, g] + b, a + [g, f] + b;
    assert fs[|a|] == f && fs[|a| + 1] == g;
    assert forall i :: 0 <= i < |gs| ==> gs[i] == fs[if i == |a| then i + 1 else if i == |a| + 1 then i - 1 else i];
    MergeEncoded(apply, m, fs);
    MergeEncoded(apply, m, gs);
    ApplyAround(apply, m, a, [f, g], b);
    ApplyAround(apply, m, a, [g, f], b);
    if ApplyAll(apply, m, a).Some? {
      var m' := ApplyAll(apply, m, a).value;
      assert Swap(apply, m', f, g);
      ApplyTwo(apply, m', f, g);
      ApplyTwo(apply, m', g, f);
    }
  }

  lemma ApplyAround<M>(apply: (M, Field) -> Option<M>, m: M, a: seq<Field>, c: seq<Field>, b: seq<Field>)
    ensures ApplyAll(apply, m, a + c + b)
         == match ApplyAll(apply, m, a)
            case None => None
            case Some(m') => match ApplyAll(apply, m', c) case None => None case Some(m'') => ApplyAll(apply, m'', b)
  {
    ApplyConcat(apply, m, a + c, b);
    ApplyConcat(apply, m, a, c);
  }

  lemma LabelFields(m: LabelPair, f: Field, g: Field)
    ensures Swap(ApplyLabel, m, f, g) && Replaces(ApplyLabel, m, f, g)
  {
  }

  lemma NumberFields(m: ProtoModel.Number, f: Field, g: Field)
    ensures Swap(ApplyNumber, m, f, g) && Replaces(ApplyNumber, m, f, g)
  {
  }

  lemma QuantileFields(m: Quantile, f: Field, g: Field)
    ensures Swap(ApplyQuantile, m, f, g) && Replaces(ApplyQuantile, m, f, g)
  {
  }

  lemma BucketFields(m: Bucket, f: Field, g: Field)
    ensures Swap(ApplyBucket, m, f, g) && Replaces(ApplyBucket, m, f, g)
  {
  }

  lemma SummaryFields(codec: Codec<Quantile>, m: Summary, f: Field, g: Field)
    ensures Swap(SummaryReader(codec), m, f, g) && (f.number != 3 ==> Replaces(SummaryReader(codec), m, f, g))
  {
  }

  lemma HistogramFields(codec: Codec<Bucket>, m: Histogram, f: Field, g: Field)
    ensures Swap(HistogramReader(codec), m, f, g) && (f.number != 3 ==> Replaces(HistogramReader(codec), m, f, g))
  {
  }

  lemma MetricFields(parts: Parts, m: Metric, f: Field, g: Field)
    ensures Swap(MetricReader(parts), m, f, g) && (f.number != 1 ==> Replaces(MetricReader(parts), m, f, g))
  {
  }

  lemma FamilyFields(codec: Codec<Metric>, m: MetricFamily, f: Field, g: Field)
    ensures Swap(FamilyReader(codec), m, f, g) && (f.number < 3 ==> Replaces(FamilyReader(codec), m, f, g))
  {
  }

  lemma SmallIndependent()
    ensures Independent(ApplyLabel) && LaterCounts(ApplyLabel, {1, 2})
    ensures Independent(ApplyNumber) && LaterCounts(ApplyNumber, {1})
    ensures Independent(ApplyQuantile) && LaterCounts(ApplyQuantile, {1, 2})
    ensures Independent(ApplyBucket) && LaterCounts(ApplyBucket, {1, 2})
  {
    forall m, f, g ensures Swap(ApplyLabel, m, f, g) && Replaces(ApplyLabel, m, f, g) {
      LabelFields(m, f, g);
    }
    forall m, f, g ensures Swap(ApplyNumber, m, f, g) && Replaces(ApplyNumber, m, f, g) {
      NumberFields(m, f, g);
    }
    forall m, f, g ensures Swap(ApplyQuantile, m, f, g) && Replaces(ApplyQuantile, m, f, g) {
      QuantileFields(m, f, g);
    }
    forall m, f, g ensures Swap(ApplyBucket, m, f, g) && Replaces(ApplyBucket, m, f, g) {
      BucketFields(m, f, g);
    }
  }

  lemma SpreadsIndependent(quantiles: Codec<Quantile>, buckets: Codec<Bucket>)
    ensures Independent(SummaryReader(quantiles)) && LaterCounts(SummaryReader(quantiles), {1, 2})
    ensures Independent(HistogramReader(buckets)) && LaterCounts(HistogramReader(buckets), {1, 2})
  {
    var summaries, histograms := SummaryReader(quantiles), HistogramReader(buckets);
    forall m, f, g ensures Swap(summaries, m, f, g) && (f.number in {1, 2} ==> Replaces(summaries, m, f, g)) {
      SummaryFields(quantiles, m, f, g);
    }
    forall m, f, g ensures Swap(histograms, m, f, g) && (f.number in {1, 2} ==> Replaces(histograms, m, f, g)) {
      HistogramFields(buckets, m, f, g);
    }
  }

  lemma MetricsIndependent(parts: Parts)
    ensures Independent(MetricReader(parts)) && LaterCounts(MetricReader(parts), {2, 3, 4, 5, 6, 7})
  {
    var reader := MetricReader(parts);
    forall m, f, g ensures Swap(reader, m, f, g) && (f.number in {2, 3, 4, 5, 6, 7} ==> Replaces(reader, m, f, g)) {
      MetricFields(parts, m, f, g);
    }
  }

  lemma FamiliesIndependent(metrics: Codec<Metric>)
    ensures Independent(FamilyReader(metrics)) && LaterCounts(FamilyReader(metrics), {1, 2})
  {
    var reader := FamilyReader(metrics);
    forall m, f, g ensures Swap(reader, m, f, g) && (f.number in {1, 2} ==> Replaces(reader, m, f, g)) {
      FamilyFields(metrics, m, f, g);
    }
  }

  /** All the messages take their fields in any order, and of those that are not repeated the last one. */
  lemma MessagesIndependent()
    ensures Independent(ApplyLabel) && LaterCounts(ApplyLabel, {1, 2})
    ensures Independent(ApplyNumber) && LaterCounts(ApplyNumber, {1})
    ensures Independent(ApplyQuantile) && LaterCounts(ApplyQuantile, {1, 2})
    ensures Independent(ApplyBucket) && LaterCounts(ApplyBucket, {1, 2})
    ensures Independent(SummaryReader(QUANTILE_CODEC)) && LaterCounts(SummaryReader(QUANTILE_CODEC), {1, 2})
    ensures Independent(HistogramReader(BUCKET_CODEC)) && LaterCounts(HistogramReader(BUCKET_CODEC), {1, 2})
    ensures Independent(MetricReader(METRIC_PARTS)) && LaterCounts(MetricReader(METRIC_PARTS), {2, 3, 4, 5, 6, 7})
    ensures Independent(FamilyReader(METRIC_CODEC)) && LaterCounts(FamilyReader(METRIC_CODEC), {1, 2})
  {
    SmallIndependent();
    SpreadsIndependent(QUANTILE_CODEC, BUCKET_CODEC);
    MetricsIndependent(METRIC_PARTS);
    FamiliesIndependent(METRIC_CODEC);
  }

  /** Of two types the later one counts, unless it has no name here: then it is passed over. */
  lemma LaterTypeCounts(metrics: Codec<Metric>, m: MetricFamily, n: u64, k: u64)
    requires n < 0x1_0000_0000 && k < 0x1_0000_0000
    ensures ApplyAll(FamilyReader(metrics), m, [Field(3, Varint(n)), Field(3, Varint(k))])
         == if k < 5 then Some(m.(fieldType := Some([COUNTER, GAUGE, SUMMARY, UNTYPED, HISTOGRAM][k])))
            else if n < 5 then Some(m.(fieldType := Some([COUNTER, GAUGE, SUMMARY, UNTYPED, HISTOGRAM][n])))
            else Some(m)
  {
    ApplyTwo(FamilyReader(metrics), m, Field(3, Varint(n)), Field(3, Varint(k)));
    TypeTells(n);
    TypeTells(k);
  }

  /** All the messages do. */
  lemma MessagesObey()
    ensures Obeys(ApplyLabel, LabelWants) && Obeys(ApplyNumber, NumberWants)
    ensures Obeys(ApplyQuantile, QuantileWants) && Obeys(ApplyBucket, BucketWants)
    ensures Obeys(SummaryReader(QUANTILE_CODEC), SpreadWants) && Obeys(HistogramReader(BUCKET_CODEC), SpreadWants)
    ensures Obeys(MetricReader(METRIC_PARTS), MetricWants) && Obeys(FamilyReader(METRIC_CODEC), FamilyWants)
  {
    SpreadsObey(QUANTILE_CODEC, BUCKET_CODEC);
    MetricsObey(METRIC_PARTS);
    FamiliesObey(METRIC_CODEC);
  }

  lemma SpreadsObey(quantiles: Codec<Quantile>, buckets: Codec<Bucket>)
    ensures Obeys(SummaryReader(quantiles), SpreadWants) && Obeys(HistogramReader(buckets), SpreadWants)
  {
  }

  lemma MetricsObey(parts: Parts)
    ensures Obeys(MetricReader(parts), MetricWants)
  {
  }

  lemma FamiliesObey(metrics: Codec<Metric>)
    ensures Obeys(FamilyReader(metrics), FamilyWants)
  {
  }
}
