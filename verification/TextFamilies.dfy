/**
 What a text says about metric families: the lines each family is printed as, and a reader that gathers
 lines back into families.
 */
module TextFamilies {
  import opened Wrappers
  import opened Sequences
  import opened Floats
  import opened Model
  import opened TextLines

  /** A bucket or a quantile: where it is, as the text of its extra label or as a number, and its value. */
  datatype Point<+A> = Point(at: A, value: F64)

  /** What the text tells of a metric. */
  datatype Reading<+A> =
    | Single(labels: seq<LabelPair>, value: F64, timestampMs: int)
    | Spread(labels: seq<LabelPair>, points: seq<Point<A>>, sum: F64, count: F64, timestampMs: int)

  type Drawn = Reading<string>

  datatype Family<+A> = Family(name: string, help: string, fieldType: MetricType, metric: seq<Reading<A>>)

  type FamilyView = Family<string>

  const BUCKET_LABEL := "le"
  const QUANTILE := "quantile"
  const POSITIVE_INF := "+Inf"

  // ---- Drawing --------------------------------------------------------------------------------------------

  function BucketPoints(p: Printer, buckets: seq<Bucket>): (points: seq<Point<string>>)
    ensures |points| == |buckets|
  {
    seq(|buckets|, i requires 0 <= i < |buckets| =>
      Point(p.show(buckets[i].upperBound), p.fromCount(buckets[i].cumulativeCount)))
  }

  predicate InfSeen(buckets: seq<Bucket>) {
    exists i :: 0 <= i < |buckets| && buckets[i].upperBound.PosInf?
  }

  /** The buckets and, unless one of them is unbounded, one more that holds every observation. */
  function HistogramPoints(p: Printer, h: Histogram): seq<Point<string>> {
    BucketPoints(p, h.bucket)
    + if InfSeen(h.bucket) then [] else [Point(POSITIVE_INF, p.fromCount(h.sampleCount))]
  }

  function QuantilePoints(p: Printer, quantiles: seq<Quantile>): seq<Point<string>> {
    seq(|quantiles|, i requires 0 <= i < |quantiles| => Point(p.show(quantiles[i].quantile), quantiles[i].value))
  }

  function Draw(p: Printer, t: MetricType, m: Metric): Drawn {
    match t
    case COUNTER => Single(m.labels, m.counter, m.timestampMs)
    case GAUGE => Single(m.labels, m.gauge, m.timestampMs)
    case UNTYPED => Single(m.labels, m.untyped, m.timestampMs)
    case HISTOGRAM =>
      var h := m.histogram;
      Spread(m.labels, HistogramPoints(p, h), h.sampleSum, p.fromCount(h.sampleCount), m.timestampMs)
    case SUMMARY =>
      var s := m.summary;
      Spread(m.labels, QuantilePoints(p, s.quantile), s.sampleSum, p.fromCount(s.sampleCount), m.timestampMs)
  }

  predicate IsSpread(t: MetricType) {
    t.HISTOGRAM? || t.SUMMARY?
  }

  // ---- Lines ----------------------------------------------------------------------------------------------

  function PointName(name: string, t: MetricType): string {
    if t.HISTOGRAM? then name + "_bucket" else name
  }

  function PointLabel(t: MetricType): string {
    if t.HISTOGRAM? then BUCKET_LABEL else QUANTILE
  }

  function PointLine(name: string, t: MetricType, labels: seq<LabelPair>, ts: int, point: Point<string>): Line {
    Sample(PointName(name, t), labels + [LabelPair(PointLabel(t), point.at)], point.value, ts)
  }

  function PointLines(name: string, t: MetricType, labels: seq<LabelPair>, ts: int, points: seq<Point<string>>)
    : (ls: seq<Line>)
    ensures |ls| == |points|
    ensures forall i :: 0 <= i < |points| ==> ls[i] == PointLine(name, t, labels, ts, points[i])
  {
    seq(|points|, i requires 0 <= i < |points| => PointLine(name, t, labels, ts, points[i]))
  }

  function SumLine(name: string, d: Drawn): Line
    requires d.Spread?
  {
    Sample(name + "_sum", d.labels, d.sum, d.timestampMs)
  }

  function CountLine(name: string, d: Drawn): Line
    requires d.Spread?
  {
    Sample(name + "_count", d.labels, d.count, d.timestampMs)
  }

  function DrawnLines(name: string, t: MetricType, d: Drawn): seq<Line> {
    match d
    case Single(labels, value, ts) => [Sample(name, labels, value, ts)]
    case Spread(labels, points, _, _, ts) => PointLines(name, t, labels, ts, points) + [SumLine(name, d), CountLine(name, d)]
  }

  function MetricLines(p: Printer, name: string, t: MetricType, ms: seq<Metric>): seq<Line> {
    if ms == [] then []
    else MetricLines(p, name, t, ms[..|ms| - 1]) + DrawnLines(name, t, Draw(p, t, ms[|ms| - 1]))
  }

  function HelpLines(mf: MetricFamily): seq<Line> {
    if mf.help == "" then [] else [HelpLine(mf.name, mf.help)]
  }

  function HeaderLines(mf: MetricFamily): seq<Line> {
    HelpLines(mf) + [TypeLine(mf.name, mf.fieldType)]
  }

  function FamilyLines(p: Printer, mf: MetricFamily): seq<Line> {
    HeaderLines(mf) + MetricLines(p, mf.name, mf.fieldType, mf.metric)
  }

  function Lines(p: Printer, mfs: seq<MetricFamily>): seq<Line> {
    if mfs == [] then [] else Lines(p, mfs[..|mfs| - 1]) + FamilyLines(p, mfs[|mfs| - 1])
  }

  // ---- Reading --------------------------------------------------------------------------------------------

  /** A sample of this name with exactly these labels and this timestamp. */
  predicate IsSample(l: Line, name: string, labels: seq<LabelPair>, ts: int) {
    l.Sample? && l.name == name && l.labels == labels && l.timestampMs == ts
  }

  /** A sample of this name with these labels, one more label `key` behind them, and this timestamp. */
  predicate IsPoint(l: Line, name: string, key: string, labels: seq<LabelPair>, ts: int) {
    && l.Sample? && l.name == name && l.timestampMs == ts
    && |l.labels| == |labels| + 1 && l.labels[..|labels|] == labels && l.labels[|labels|].name == key
  }

  /** Points of one metric, as long as they go on. */
  function ReadPoints(name: string, key: string, labels: seq<LabelPair>, ts: int, ls: seq<Line>)
    : (r: (seq<Point<string>>, seq<Line>))
    ensures |r.1| <= |ls|
  {
    if ls == [] || !IsPoint(ls[0], name, key, labels, ts) then ([], ls)
    else
      var (points, rest) := ReadPoints(name, key, labels, ts, ls[1..]);
      ([Point(ls[0].labels[|labels|].value, ls[0].value)] + points, rest)
  }

  /**
   A metric with buckets, named `name_bucket` and labelled `le`, or with quantiles, named `name` and labelled
   `quantile`, and its sum and count; all with the same other labels and the same timestamp.
   */
  function ReadSpread(name: string, place: string, key: string, ls: seq<Line>): (r: Option<(Drawn, seq<Line>)>)
    ensures r.Some? ==> |r.value.1| < |ls|
  {
    if ls == [] || !ls[0].Sample? then None
    else
      var n, ts := |ls[0].labels|, ls[0].timestampMs;
      var labels := if ls[0].name == place && n > 0 then ls[0].labels[..n - 1] else ls[0].labels;
      var (points, rest) := ReadPoints(place, key, labels, ts, ls);
      if |rest| < 2 || !IsSample(rest[0], name + "_sum", labels, ts) || !IsSample(rest[1], name + "_count", labels, ts)
      then None
      else Some((Spread(labels, points, rest[0].value, rest[1].value, ts), rest[2..]))
  }

  function ReadDrawn(name: string, t: MetricType, ls: seq<Line>): (r: Option<(Drawn, seq<Line>)>)
    ensures r.Some? ==> |r.value.1| < |ls|
  {
    match t
    case HISTOGRAM => ReadSpread(name, name + "_bucket", "le", ls)
    case SUMMARY => ReadSpread(name, name, "quantile", ls)
    case _ =>
      if ls == [] || !ls[0].Sample? || ls[0].name != name then None
      else Some((Single(ls[0].labels, ls[0].value, ls[0].timestampMs), ls[1..]))
  }

  /** Metrics, as long as samples go on. */
  function ReadMetrics(name: string, t: MetricType, ls: seq<Line>): (r: Option<(seq<Drawn>, seq<Line>)>)
    ensures r.Some? ==> |r.value.1| <= |ls|
    decreases |ls|
  {
    if ls == [] || !ls[0].Sample? then Some(([], ls))
    else
      match ReadDrawn(name, t, ls)
      case None => None
      case Some((d, rest)) =>
        match ReadMetrics(name, t, rest)
        case None => None
        case Some((ds, rest')) => Some(([d] + ds, rest'))
  }

  function ReadTyped(name: string, help: string, ls: seq<Line>): (r: Option<(FamilyView, seq<Line>)>)
    ensures r.Some? ==> |r.value.1| < |ls|
  {
    if ls == [] || !ls[0].TypeLine? || ls[0].name != name then None
    else
      match ReadMetrics(name, ls[0].fieldType, ls[1..])
      case None => None
      case Some((ds, rest)) => Some((Family(name, help, ls[0].fieldType, ds), rest))
  }

  /** A family: its help line, if there is one, its type line and its samples. */
  function ReadFamily(ls: seq<Line>): (r: Option<(FamilyView, seq<Line>)>)
    ensures r.Some? ==> |r.value.1| < |ls|
  {
    if ls == [] then None
    else if ls[0].HelpLine? then ReadTyped(ls[0].name, ls[0].help, ls[1..])
    else ReadTyped(ls[0].name, "", ls)
  }

  function ReadFamilies(ls: seq<Line>): Option<seq<FamilyView>>
    decreases |ls|
  {
    if ls == [] then Some([])
    else
      match ReadFamily(ls)
      case None => None
      case Some((f, rest)) =>
        match ReadFamilies(rest)
        case None => None
        case Some(fs) => Some([f] + fs)
  }

  // The texts of bounds and quantiles are numbers.

  function Traverse<A, B>(f: A -> Option<B>, xs: seq<A>): Option<seq<B>> {
    if xs == [] then Some([])
    else
      match f(xs[0])
      case None => None
      case Some(y) =>
        match Traverse(f, xs[1..])
        case None => None
        case Some(ys) => Some([y] + ys)
  }

  function ReadPoint(p: Printer, point: Point<string>): Option<Point<F64>> {
    if point.at == "+Inf" then Some(Point(PosInf, point.value))
    else
      match p.parse(point.at)
      case None => None
      case Some(at) => Some(Point(at, point.value))
  }

  function ReadPlaces(p: Printer, d: Drawn): Option<Reading<F64>> {
    match d
    case Single(labels, value, ts) => Some(Single(labels, value, ts))
    case Spread(labels, points, sum, count, ts) =>
      match Traverse((point: Point<string>) => ReadPoint(p, point), points)
      case None => None
      case Some(places) => Some(Spread(labels, places, sum, count, ts))
  }

  function ReadFamilyPlaces(p: Printer, f: Family<string>): Option<Family<F64>> {
    match Traverse((d: Drawn) => ReadPlaces(p, d), f.metric)
    case None => None
    case Some(metric) => Some(Family(f.name, f.help, f.fieldType, metric))
  }

  /** A text of the format, family by family, with the texts of bounds and quantiles read as numbers. */
  function ReadExposition(p: Printer, text: string): Option<seq<Family<F64>>> {
    match ReadText(p, text)
    case None => None
    case Some(ls) =>
      match ReadFamilies(ls)
      case None => None
      case Some(fs) => Traverse((f: Family<string>) => ReadFamilyPlaces(p, f), fs)
  }

  // ---- What is read back ----------------------------------------------------------------------------------

  function Draws(p: Printer, t: MetricType, ms: seq<Metric>): (ds: seq<Drawn>)
    ensures |ds| == |ms| && forall i :: 0 <= i < |ms| ==> ds[i] == Draw(p, t, ms[i])
  {
    seq(|ms|, i requires 0 <= i < |ms| => Draw(p, t, ms[i]))
  }

  function View(p: Printer, mf: MetricFamily): FamilyView {
    Family(mf.name, DropBlanks(mf.help), mf.fieldType, Draws(p, mf.fieldType, mf.metric))
  }

  function Views(p: Printer, mfs: seq<MetricFamily>): (vs: seq<FamilyView>)
    ensures |vs| == |mfs| && forall i :: 0 <= i < |mfs| ==> vs[i] == View(p, mfs[i])
  {
    seq(|mfs|, i requires 0 <= i < |mfs| => View(p, mfs[i]))
  }

  /** Names are valid, and every number that is printed can be read. */
  ghost predicate GoodMetric(p: Printer, t: MetricType, m: Metric) {
    && ValidLabels(m.labels)
    && match t
       case COUNTER => Printable(p, m.counter)
       case GAUGE => Printable(p, m.gauge)
       case UNTYPED => Printable(p, m.untyped)
       case HISTOGRAM =>
         && Printable(p, m.histogram.sampleSum) && Printable(p, p.fromCount(m.histogram.sampleCount))
         && forall i :: 0 <= i < |m.histogram.bucket| ==>
              && Printable(p, m.histogram.bucket[i].upperBound)
              && Printable(p, p.fromCount(m.histogram.bucket[i].cumulativeCount))
       case SUMMARY =>
         && Printable(p, m.summary.sampleSum) && Printable(p, p.fromCount(m.summary.sampleCount))
         && forall i :: 0 <= i < |m.summary.quantile| ==>
              && Printable(p, m.summary.quantile[i].quantile)
              && Printable(p, m.summary.quantile[i].value)
  }

  ghost predicate GoodFamily(p: Printer, mf: MetricFamily) {
    ValidName(mf.name) && forall i :: 0 <= i < |mf.metric| ==> GoodMetric(p, mf.fieldType, mf.metric[i])
  }

  // ---- The lines are good ---------------------------------------------------------------------------------

  ghost predicate GoodLines(p: Printer, ls: seq<Line>) {
    forall i :: 0 <= i < |ls| ==> GoodLine(p, ls[i])
  }

  ghost predicate GoodDrawn(p: Printer, d: Drawn) {
    && ValidLabels(d.labels)
    && (d.Single? ==> Printable(p, d.value))
    && (d.Spread? ==>
          && Printable(p, d.sum) && Printable(p, d.count)
          && forall i :: 0 <= i < |d.points| ==> Printable(p, d.points[i].value))
  }

  lemma DrawGood(p: Printer, t: MetricType, m: Metric)
    requires GoodMetric(p, t, m)
    ensures GoodDrawn(p, Draw(p, t, m))
  {
  }

  lemma DrawnLinesGood(p: Printer, name: string, t: MetricType, d: Drawn)
    requires ValidName(name) && GoodDrawn(p, d)
    ensures GoodLines(p, DrawnLines(name, t, d))
  {
    if d.Spread? {
      assert ValidName(name + "_sum") && ValidName(name + "_count") && ValidName(name + "_bucket");
      assert ValidName("le") && ValidName("quantile");
      forall i | 0 <= i < |d.points| ensures GoodLine(p, PointLine(name, t, d.labels, d.timestampMs, d.points[i])) {
        assert ValidLabels(d.labels + [LabelPair(PointLabel(t), d.points[i].at)]);
      }
    }
  }

  lemma {:induction false} MetricLinesGood(p: Printer, name: string, t: MetricType, ms: seq<Metric>)
    requires ValidName(name) && forall i :: 0 <= i < |ms| ==> GoodMetric(p, t, ms[i])
    ensures GoodLines(p, MetricLines(p, name, t, ms))
  {
    if ms != [] {
      var m := ms[|ms| - 1];
      MetricLinesGood(p, name, t, ms[..|ms| - 1]);
      DrawGood(p, t, m);
      DrawnLinesGood(p, name, t, Draw(p, t, m));
    }
  }

  lemma {:induction false} LinesGood(p: Printer, mfs: seq<MetricFamily>)
    requires forall i :: 0 <= i < |mfs| ==> GoodFamily(p, mfs[i])
    ensures GoodLines(p, Lines(p, mfs))
  {
    if mfs != [] {
      var mf := mfs[|mfs| - 1];
      LinesGood(p, mfs[..|mfs| - 1]);
      MetricLinesGood(p, mf.name, mf.fieldType, mf.metric);
    }
  }

  // ---- Gathering reads back -------------------------------------------------------------------------------

  lemma PointLineReads(name: string, t: MetricType, labels: seq<LabelPair>, ts: int, point: Point<string>)
    ensures var l := PointLine(name, t, labels, ts, point);
            IsPoint(l, PointName(name, t), PointLabel(t), labels, ts) && l.labels[|labels|].value == point.at
  {
  }

  lemma {:induction false} ReadPointsOf(name: string, t: MetricType, labels: seq<LabelPair>, ts: int,
                                        points: seq<Point<string>>, rest: seq<Line>)
    requires rest != [] && rest[0].name != PointName(name, t)
    ensures ReadPoints(PointName(name, t), PointLabel(t), labels, ts, PointLines(name, t, labels, ts, points) + rest)
         == (points, rest)
    decreases |points|
  {
    var ls := PointLines(name, t, labels, ts, points) + rest;
    if points == [] {
      assert ls == rest;
    } else {
      assert ls[1..] == PointLines(name, t, labels, ts, points[1..]) + rest;
      assert ls[0] == PointLine(name, t, labels, ts, points[0]);
      PointLineReads(name, t, labels, ts, points[0]);
      ReadPointsOf(name, t, labels, ts, points[1..], rest);
      assert points == [points[0]] + points[1..];
    }
  }

  lemma ReadSpreadOf(name: string, t: MetricType, d: Drawn, rest: seq<Line>)
    requires IsSpread(t) && d.Spread?
    ensures ReadSpread(name, PointName(name, t), PointLabel(t), DrawnLines(name, t, d) + rest) == Some((d, rest))
  {
    var points, two := PointLines(name, t, d.labels, d.timestampMs, d.points), [SumLine(name, d), CountLine(name, d)];
    var ls := DrawnLines(name, t, d) + rest;
    Associate(points, two, rest);
    assert |name + "_sum"| == |name| + 4 && |name + "_bucket"| == |name| + 7;
    ReadPointsOf(name, t, d.labels, d.timestampMs, d.points, two + rest);
    assert (two + rest)[2..] == rest;
    if d.points == [] {
      assert ls[0] == SumLine(name, d);
    } else {
      assert ls[0] == PointLine(name, t, d.labels, d.timestampMs, d.points[0]);
      assert ls[0].labels[..|ls[0].labels| - 1] == d.labels;
    }
  }

  lemma ReadDrawnOf(name: string, t: MetricType, d: Drawn, rest: seq<Line>)
    requires IsSpread(t) <==> d.Spread?
    ensures ReadDrawn(name, t, DrawnLines(name, t, d) + rest) == Some((d, rest))
    ensures DrawnLines(name, t, d)[0].Sample?
  {
    if d.Spread? {
      ReadSpreadOf(name, t, d, rest);
    } else {
      assert (DrawnLines(name, t, d) + rest)[1..] == rest;
    }
  }

  function Before(ds: seq<Drawn>, r: Option<(seq<Drawn>, seq<Line>)>): Option<(seq<Drawn>, seq<Line>)> {
    match r
    case None => None
    case Some((more, rest)) => Some((ds + more, rest))
  }

  lemma BeforeOne(ds: seq<Drawn>, d: Drawn, r: Option<(seq<Drawn>, seq<Line>)>)
    ensures Before(ds, Before([d], r)) == Before(ds + [d], r)
  {
    if r.Some? {
      Associate(ds, [d], r.value.0);
    }
  }

  lemma BeforeNone(r: Option<(seq<Drawn>, seq<Line>)>)
    ensures Before([], r) == r
  {
    assert r.Some? ==> [] + r.value.0 == r.value.0;
  }

  lemma DrawsNext(p: Printer, t: MetricType, ms: seq<Metric>)
    ensures ms == [] ==> Draws(p, t, ms) == []
    ensures ms != [] ==> Draws(p, t, ms) == Draws(p, t, ms[..|ms| - 1]) + [Draw(p, t, ms[|ms| - 1])]
  {
  }

  lemma ReadMetricsFirst(name: string, t: MetricType, d: Drawn, rest: seq<Line>)
    requires IsSpread(t) <==> d.Spread?
    ensures ReadMetrics(name, t, DrawnLines(name, t, d) + rest) == Before([d], ReadMetrics(name, t, rest))
  {
    ReadDrawnOf(name, t, d, rest);
  }

  lemma {:induction false} ReadMetricsBefore(p: Printer, name: string, t: MetricType, ms: seq<Metric>, rest: seq<Line>)
    ensures ReadMetrics(name, t, MetricLines(p, name, t, ms) + rest) == Before(Draws(p, t, ms), ReadMetrics(name, t, rest))
    decreases |ms|
  {
    if ms == [] {
      assert MetricLines(p, name, t, ms) + rest == rest;
      DrawsNext(p, t, ms);
      BeforeNone(ReadMetrics(name, t, rest));
    } else {
      var front, d := ms[..|ms| - 1], Draw(p, t, ms[|ms| - 1]);
      var ls := DrawnLines(name, t, d);
      Associate(MetricLines(p, name, t, front), ls, rest);
      ReadMetricsBefore(p, name, t, front, ls + rest);
      ReadMetricsFirst(name, t, d, rest);
      BeforeOne(Draws(p, t, front), d, ReadMetrics(name, t, rest));
      DrawsNext(p, t, ms);
    }
  }

  /** Samples are read as they are. */
  lemma {:induction false} MetricLinesPlain(p: Printer, name: string, t: MetricType, ms: seq<Metric>)
    ensures forall i :: 0 <= i < |MetricLines(p, name, t, ms)| ==> MetricLines(p, name, t, ms)[i].Sample?
  {
    if ms != [] {
      MetricLinesPlain(p, name, t, ms[..|ms| - 1]);
    }
  }

  lemma PlainConcat(a: seq<Line>, b: seq<Line>)
    ensures PlainLines(a + b) == PlainLines(a) + PlainLines(b)
    ensures (forall i :: 0 <= i < |a| ==> a[i].Sample?) ==> PlainLines(a) == a
  {
  }

  /** The lines after a family's header up to lines that do not start with a sample. */
  lemma ReadTypedOf(p: Printer, mf: MetricFamily, help: string, rest: seq<Line>)
    requires rest == [] || !rest[0].Sample?
    ensures var body := MetricLines(p, mf.name, mf.fieldType, mf.metric);
            ReadTyped(mf.name, help, [TypeLine(mf.name, mf.fieldType)] + (body + rest))
            == Some((Family(mf.name, help, mf.fieldType, Draws(p, mf.fieldType, mf.metric)), rest))
  {
    var body := MetricLines(p, mf.name, mf.fieldType, mf.metric);
    assert ([TypeLine(mf.name, mf.fieldType)] + (body + rest))[1..] == body + rest;
    ReadMetricsBefore(p, mf.name, mf.fieldType, mf.metric, rest);
    var ds := Draws(p, mf.fieldType, mf.metric);
    assert ds + [] == ds;
  }

  /** A family's lines after they were read, up to the next family. */
  lemma ReadFamilyOf(p: Printer, mf: MetricFamily, rest: seq<Line>)
    requires rest == [] || !rest[0].Sample?
    ensures ReadFamily(PlainLines(FamilyLines(p, mf)) + rest) == Some((View(p, mf), rest))
    ensures FamilyLines(p, mf) != [] && !FamilyLines(p, mf)[0].Sample?
  {
    var typed, body := [TypeLine(mf.name, mf.fieldType)], MetricLines(p, mf.name, mf.fieldType, mf.metric);
    MetricLinesPlain(p, mf.name, mf.fieldType, mf.metric);
    PlainConcat(HeaderLines(mf), body);
    PlainConcat(body, []);
    if mf.help == "" {
      assert DropBlanks(mf.help) == "";
      assert PlainLines(HeaderLines(mf)) == typed;
      Associate(typed, body, rest);
      ReadTypedOf(p, mf, "", rest);
    } else {
      var helped := [HelpLine(mf.name, DropBlanks(mf.help))];
      assert PlainLines(HeaderLines(mf)) == helped + typed;
      Associate(helped + typed, body, rest);
      Associate(helped, typed, body + rest);
      ReadTypedOf(p, mf, DropBlanks(mf.help), rest);
      assert (helped + (typed + (body + rest)))[1..] == typed + (body + rest);
    }
  }

  ghost predicate AtFamily(ls: seq<Line>) {
    ls == [] || !ls[0].Sample?
  }

  lemma ReadFamiliesFirst(p: Printer, mf: MetricFamily, rest: seq<Line>)
    requires AtFamily(rest)
    ensures AtFamily(PlainLines(FamilyLines(p, mf)) + rest)
    ensures ReadFamilies(PlainLines(FamilyLines(p, mf)) + rest) == Prepend([View(p, mf)], ReadFamilies(rest))
  {
    ReadFamilyOf(p, mf, rest);
    assert (PlainLines(FamilyLines(p, mf)) + rest)[0] == Plain(FamilyLines(p, mf)[0]);
  }

  lemma ViewsNext(p: Printer, mfs: seq<MetricFamily>)
    ensures mfs == [] ==> Views(p, mfs) == []
    ensures mfs != [] ==> Views(p, mfs) == Views(p, mfs[..|mfs| - 1]) + [View(p, mfs[|mfs| - 1])]
  {
  }

  lemma {:induction false} ReadFamiliesBefore(p: Printer, mfs: seq<MetricFamily>, rest: seq<Line>)
    requires AtFamily(rest)
    ensures ReadFamilies(PlainLines(Lines(p, mfs)) + rest) == Prepend(Views(p, mfs), ReadFamilies(rest))
    decreases |mfs|
  {
    ViewsNext(p, mfs);
    if mfs == [] {
      assert PlainLines(Lines(p, mfs)) + rest == rest;
      PrependNone(ReadFamilies(rest));
    } else {
      var front, mf := mfs[..|mfs| - 1], mfs[|mfs| - 1];
      var ls := PlainLines(FamilyLines(p, mf));
      PlainConcat(Lines(p, front), FamilyLines(p, mf));
      Associate(PlainLines(Lines(p, front)), ls, rest);
      ReadFamiliesFirst(p, mf, rest);
      ReadFamiliesBefore(p, front, ls + rest);
      PrependTwice(Views(p, front), View(p, mf), ReadFamilies(rest));
    }
  }

  // ---- Numbers read back -----------------------------------------------------------------------------------

  /** The buckets, with one more for infinity unless one of them is unbounded. */
  function Buckets(p: Printer, h: Histogram): seq<Point<F64>> {
    seq(|h.bucket|, i requires 0 <= i < |h.bucket| =>
      Point(h.bucket[i].upperBound, p.fromCount(h.bucket[i].cumulativeCount)))
    + if InfSeen(h.bucket) then [] else [Point(PosInf, p.fromCount(h.sampleCount))]
  }

  function Quantiles(quantiles: seq<Quantile>): seq<Point<F64>> {
    seq(|quantiles|, i requires 0 <= i < |quantiles| => Point(quantiles[i].quantile, quantiles[i].value))
  }

  /** What there is to be told of a metric of this type. */
  function Told(p: Printer, t: MetricType, m: Metric): Reading<F64> {
    match t
    case COUNTER => Single(m.labels, m.counter, m.timestampMs)
    case GAUGE => Single(m.labels, m.gauge, m.timestampMs)
    case UNTYPED => Single(m.labels, m.untyped, m.timestampMs)
    case HISTOGRAM =>
      var h := m.histogram;
      Spread(m.labels, Buckets(p, h), h.sampleSum, p.fromCount(h.sampleCount), m.timestampMs)
    case SUMMARY =>
      var s := m.summary;
      Spread(m.labels, Quantiles(s.quantile), s.sampleSum, p.fromCount(s.sampleCount), m.timestampMs)
  }

  function ToldAll(p: Printer, t: MetricType, ms: seq<Metric>): (rs: seq<Reading<F64>>)
    ensures |rs| == |ms| && forall i :: 0 <= i < |ms| ==> rs[i] == Told(p, t, ms[i])
  {
    seq(|ms|, i requires 0 <= i < |ms| => Told(p, t, ms[i]))
  }

  /** Of a family: name, help text without leading blanks, type, and metrics. */
  function ToldOf(p: Printer, mf: MetricFamily): Family<F64> {
    Family(mf.name, DropBlanks(mf.help), mf.fieldType, ToldAll(p, mf.fieldType, mf.metric))
  }

  function ToldFamilies(p: Printer, mfs: seq<MetricFamily>): (fs: seq<Family<F64>>)
    ensures |fs| == |mfs| && forall i :: 0 <= i < |mfs| ==> fs[i] == ToldOf(p, mfs[i])
  {
    seq(|mfs|, i requires 0 <= i < |mfs| => ToldOf(p, mfs[i]))
  }

  lemma {:induction false} TraverseIs<A, B>(f: A -> Option<B>, xs: seq<A>, ys: seq<B>)
    requires |xs| == |ys| && forall i :: 0 <= i < |xs| ==> f(xs[i]) == Some(ys[i])
    ensures Traverse(f, xs) == Some(ys)
  {
    if xs != [] {
      TraverseIs(f, xs[1..], ys[1..]);
      assert [ys[0]] + ys[1..] == ys;
    }
  }

  lemma PointReads(p: Printer, at: F64, value: F64)
    requires Printable(p, at)
    ensures ReadPoint(p, Point(p.show(at), value)) == Some(Point(at, value))
  {
  }

  lemma HistogramPointsRead(p: Printer, h: Histogram)
    requires forall i :: 0 <= i < |h.bucket| ==> Printable(p, h.bucket[i].upperBound)
    ensures Traverse((point: Point<string>) => ReadPoint(p, point), HistogramPoints(p, h)) == Some(Buckets(p, h))
  {
    var drawn, told := HistogramPoints(p, h), Buckets(p, h);
    forall i | 0 <= i < |drawn| ensures ReadPoint(p, drawn[i]) == Some(told[i]) {
      if i < |h.bucket| {
        PointReads(p, h.bucket[i].upperBound, told[i].value);
      }
    }
    TraverseIs((point: Point<string>) => ReadPoint(p, point), drawn, told);
  }

  lemma QuantilePointsRead(p: Printer, quantiles: seq<Quantile>)
    requires forall i :: 0 <= i < |quantiles| ==> Printable(p, quantiles[i].quantile)
    ensures Traverse((point: Point<string>) => ReadPoint(p, point), QuantilePoints(p, quantiles))
         == Some(Quantiles(quantiles))
  {
    var drawn, told := QuantilePoints(p, quantiles), Quantiles(quantiles);
    forall i | 0 <= i < |drawn| ensures ReadPoint(p, drawn[i]) == Some(told[i]) {
      PointReads(p, quantiles[i].quantile, quantiles[i].value);
    }
    TraverseIs((point: Point<string>) => ReadPoint(p, point), drawn, told);
  }

  lemma DrawnReads(p: Printer, t: MetricType, m: Metric)
    requires GoodMetric(p, t, m)
    ensures ReadPlaces(p, Draw(p, t, m)) == Some(Told(p, t, m))
  {
    if t.HISTOGRAM? {
      HistogramPointsRead(p, m.histogram);
    } else if t.SUMMARY? {
      QuantilePointsRead(p, m.summary.quantile);
    }
  }

  lemma ViewReads(p: Printer, mf: MetricFamily)
    requires GoodFamily(p, mf)
    ensures ReadFamilyPlaces(p, View(p, mf)) == Some(ToldOf(p, mf))
  {
    var ds, told := Draws(p, mf.fieldType, mf.metric), ToldAll(p, mf.fieldType, mf.metric);
    forall i | 0 <= i < |ds| ensures ReadPlaces(p, ds[i]) == Some(told[i]) {
      DrawnReads(p, mf.fieldType, mf.metric[i]);
    }
    TraverseIs((d: Drawn) => ReadPlaces(p, d), ds, told);
  }

  lemma ViewsRead(p: Printer, mfs: seq<MetricFamily>)
    requires forall i :: 0 <= i < |mfs| ==> GoodFamily(p, mfs[i])
    ensures Traverse((f: Family<string>) => ReadFamilyPlaces(p, f), Views(p, mfs)) == Some(ToldFamilies(p, mfs))
  {
    forall i | 0 <= i < |mfs| ensures ReadFamilyPlaces(p, Views(p, mfs)[i]) == Some(ToldFamilies(p, mfs)[i]) {
      ViewReads(p, mfs[i]);
    }
    TraverseIs((f: Family<string>) => ReadFamilyPlaces(p, f), Views(p, mfs), ToldFamilies(p, mfs));
  }

  lemma ViewsGathered(p: Printer, mfs: seq<MetricFamily>)
    ensures ReadFamilies(PlainLines(Lines(p, mfs))) == Some(Views(p, mfs))
  {
    ReadFamiliesBefore(p, mfs, []);
    Associate(PlainLines(Lines(p, mfs)), [], []);
    Associate(Views(p, mfs), [], []);
  }

  /** The text of families with valid names is read back as what there was to be told of them. */
  lemma ExpositionRoundTrip(p: Printer, mfs: seq<MetricFamily>)
    requires forall i :: 0 <= i < |mfs| ==> GoodFamily(p, mfs[i])
    ensures ReadExposition(p, Render(p, Lines(p, mfs))) == Some(ToldFamilies(p, mfs))
  {
    LinesGood(p, mfs);
    TextRoundTrip(p, Lines(p, mfs));
    ViewsGathered(p, mfs);
    ViewsRead(p, mfs);
  }

  /**
   The word `+Inf` is printed for the bucket that is added only: where infinity is printed as `inf`, it is there
   exactly if the histogram has no unbounded bucket of its own.
   */
  lemma InfinityPrintedIff(p: Printer, h: Histogram)
    requires p.show(PosInf) == "inf" && forall i :: 0 <= i < |h.bucket| ==> Printable(p, h.bucket[i].upperBound)
    ensures (exists i :: 0 <= i < |HistogramPoints(p, h)| && HistogramPoints(p, h)[i].at == POSITIVE_INF)
       <==> !InfSeen(h.bucket)
    ensures forall i :: 0 <= i < |h.bucket| && h.bucket[i].upperBound.PosInf? ==> HistogramPoints(p, h)[i].at == "inf"
  {
    var points := HistogramPoints(p, h);
    assert "inf"[0] != POSITIVE_INF[0];
    forall i | 0 <= i < |h.bucket| ensures points[i].at != POSITIVE_INF {
      assert points[i].at == p.show(h.bucket[i].upperBound);
    }
    if !InfSeen(h.bucket) {
      assert points[|h.bucket|].at == POSITIVE_INF;
    }
  }
}
