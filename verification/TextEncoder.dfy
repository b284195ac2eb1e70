/** The text encoder: nested loops that write to a growing buffer. */
module TextEncoder {
  import opened Wrappers
  import opened Sequences
  import opened Floats
  import opened Model
  import opened Escaping
  import opened TextLines
  import opened TextFamilies
  import opened Encoding

  class Writer {
    var buf: string

    constructor ()
      ensures buf == ""
    {
      buf := "";
    }

    method WriteAll(text: string)
      modifies this
      ensures buf == old(buf) + text
    {
      buf := buf + text;
    }
  }

  // ---- Labels ---------------------------------------------------------------------------------------------

  lemma {:induction false} ShowPairsNext(sep: string, labels: seq<LabelPair>, l: LabelPair)
    ensures ShowPairs(sep, labels + [l])
         == ShowPairs(sep, labels) + ((if labels == [] then sep else ",") + ShowLabel(l))
    decreases |labels|
  {
    if labels == [] {
      assert labels + [l] == [l] && [l][1..] == [];
      assert ShowPairs(sep, [l]) == sep + ShowLabel(l) + "";
    } else {
      assert (labels + [l])[1..] == labels[1..] + [l];
      ShowPairsNext(",", labels[1..], l);
      Associate(sep + ShowLabel(labels[0]), ShowPairs(",", labels[1..]), "," + ShowLabel(l));
    }
  }

  method WriteLabel(separator: string, name: string, value: string, w: Writer)
    modifies w
    ensures w.buf == old(w.buf) + (separator + ShowLabel(LabelPair(name, value)))
  {
    var escaped := EscapeString(value, true);
    ghost var o := w.buf;
    w.WriteAll(separator);
    w.WriteAll(name);
    w.WriteAll("=\"");
    w.WriteAll(escaped);
    w.WriteAll("\"");
    Associate(o + separator + name + "=\"", escaped, "\"");
    Associate(o + separator + name, "=\"", escaped + "\"");
    Associate(o + separator, name, "=\"" + (escaped + "\""));
    Associate(o, separator, name + ("=\"" + (escaped + "\"")));
    Associate(name + "=\"", escaped, "\"");
    Associate(name, "=\"", escaped + "\"");
  }

  function WithExtra(labels: seq<LabelPair>, additional: Option<LabelPair>): seq<LabelPair> {
    labels + if additional.None? then [] else [additional.value]
  }

  method LabelPairsToText(pairs: seq<LabelPair>, additional: Option<LabelPair>, w: Writer)
    modifies w
    ensures w.buf == old(w.buf) + ShowLabels(WithExtra(pairs, additional))
  {
    ghost var o := w.buf;
    if pairs == [] && additional.None? {
      return;
    }
    var separator := "{";
    for i := 0 to |pairs|
      invariant separator == if i == 0 then "{" else ","
      invariant w.buf == o + ShowPairs("{", pairs[..i])
    {
      var lp := pairs[i];
      WriteLabel(separator, lp.name, lp.value, w);
      assert pairs[..i + 1] == pairs[..i] + [lp];
      ShowPairsNext("{", pairs[..i], lp);
      Associate(o, ShowPairs("{", pairs[..i]), separator + ShowLabel(lp));
      separator := ",";
    }
    assert pairs[..|pairs|] == pairs && pairs + [] == pairs;
    if additional.Some? {
      WriteLabel(separator, additional.value.name, additional.value.value, w);
      ShowPairsNext("{", pairs, additional.value);
      Associate(o, ShowPairs("{", pairs), separator + ShowLabel(additional.value));
    }
    w.WriteAll("}");
    Associate(o, ShowPairs("{", WithExtra(pairs, additional)), "}");
  }

  // ---- Samples --------------------------------------------------------------------------------------------

  lemma RenderNext(p: Printer, ls: seq<Line>, l: Line)
    ensures Render(p, ls + [l]) == Render(p, ls) + (ShowLine(p, l) + "\n")
  {
    assert (ls + [l])[..|ls|] == ls;
  }

  /** The value, and the timestamp unless it is zero. */
  method WriteNumbers(value: F64, timestamp: int, p: Printer, w: Writer)
    modifies w
    ensures w.buf == old(w.buf) + (p.show(value) + if timestamp == 0 then "" else " " + ShowInt(timestamp))
  {
    ghost var o := w.buf;
    w.WriteAll(p.show(value));
    if timestamp != 0 {
      w.WriteAll(" ");
      w.WriteAll(ShowInt(timestamp));
      Associate(o + p.show(value), " ", ShowInt(timestamp));
      Associate(o, p.show(value), " " + ShowInt(timestamp));
    } else {
      Associate(p.show(value), "", "");
    }
  }

  /** Writes one line after the lines `ls`; `o` is what the buffer held before them. */
  method WriteSample(name: string, postfix: string, m: Metric, additional: Option<LabelPair>, value: F64, p: Printer,
                     w: Writer, ghost o: string, ghost ls: seq<Line>)
    requires w.buf == o + Render(p, ls)
    modifies w
    ensures w.buf
         == o + Render(p, ls + [Sample(name + postfix, WithExtra(m.labels, additional), value, m.timestampMs)])
  {
    ghost var start := w.buf;
    w.WriteAll(name);
    w.WriteAll(postfix);
    Associate(start, name, postfix);
    ghost var word := name + postfix;
    LabelPairsToText(m.labels, additional, w);
    Associate(start, word, ShowLabels(WithExtra(m.labels, additional)));
    word := word + ShowLabels(WithExtra(m.labels, additional));
    w.WriteAll(" ");
    Associate(start, word, " ");
    word := word + " ";
    var timestamp := m.timestampMs;
    WriteNumbers(value, timestamp, p, w);
    ghost var stamp := if timestamp == 0 then "" else " " + ShowInt(timestamp);
    Associate(word, p.show(value), stamp);
    Associate(start, word, p.show(value) + stamp);
    word := word + p.show(value) + stamp;
    w.WriteAll("\n");
    Associate(start, word, "\n");
    ghost var l := Sample(name + postfix, WithExtra(m.labels, additional), value, timestamp);
    assert word == ShowLine(p, l);
    RenderNext(p, ls, l);
    Associate(o, Render(p, ls), word + "\n");
  }

  // ---- Metrics --------------------------------------------------------------------------------------------

  method WriteSumAndCount(name: string, m: Metric, sum: F64, count: F64, p: Printer, w: Writer, ghost o: string,
                          ghost ls: seq<Line>)
    requires w.buf == o + Render(p, ls)
    modifies w
    ensures w.buf
         == o + Render(p, ls + [Sample(name + "_sum", m.labels, sum, m.timestampMs),
                                Sample(name + "_count", m.labels, count, m.timestampMs)])
  {
    assert WithExtra(m.labels, None) == m.labels;
    WriteSample(name, "_sum", m, None, sum, p, w, o, ls);
    ghost var first := Sample(name + "_sum", m.labels, sum, m.timestampMs);
    ghost var second := Sample(name + "_count", m.labels, count, m.timestampMs);
    WriteSample(name, "_count", m, None, count, p, w, o, ls + [first]);
    Associate(ls, [first], [second]);
    assert [first] + [second] == [first, second];
  }

  lemma PointLinesNext(name: string, t: MetricType, m: Metric, points: seq<Point<string>>, i: nat,
                       ls: seq<Line>, done: seq<Line>)
    requires i < |points| && done == PointLines(name, t, m.labels, m.timestampMs, points[..i])
    ensures var line := PointLine(name, t, m.labels, m.timestampMs, points[i]);
            && done + [line] == PointLines(name, t, m.labels, m.timestampMs, points[..i + 1])
            && ls + done + [line] == ls + (done + [line])
  {
    Associate(ls, done, [PointLine(name, t, m.labels, m.timestampMs, points[i])]);
  }

  /** Writes the line of one bucket, the synthetic one included. */
  method WriteBucket(name: string, m: Metric, at: string, count: F64, p: Printer, w: Writer, ghost o: string,
                     ghost ls: seq<Line>)
    requires w.buf == o + Render(p, ls)
    modifies w
    ensures w.buf == o + Render(p, ls + [PointLine(name, HISTOGRAM, m.labels, m.timestampMs, Point(at, count))])
  {
    WriteSample(name, "_bucket", m, Some(LabelPair(BUCKET_LABEL, at)), count, p, w, o, ls);
  }

  method WriteBuckets(name: string, m: Metric, p: Printer, w: Writer, ghost o: string, ghost ls: seq<Line>)
    returns (infSeen: bool, ghost done: seq<Line>)
    requires w.buf == o + Render(p, ls)
    modifies w
    ensures infSeen == InfSeen(m.histogram.bucket)
    ensures done == PointLines(name, HISTOGRAM, m.labels, m.timestampMs, BucketPoints(p, m.histogram.bucket))
    ensures w.buf == o + Render(p, ls + done)
  {
    var buckets := m.histogram.bucket;
    Associate(ls, [], []);
    infSeen, done := false, [];
    for i := 0 to |buckets|
      invariant infSeen == InfSeen(buckets[..i])
      invariant done == PointLines(name, HISTOGRAM, m.labels, m.timestampMs, BucketPoints(p, buckets)[..i])
      invariant w.buf == o + Render(p, ls + done)
    {
      done := WriteNextBucket(name, m, i, p, w, o, ls, done);
      InfSeenNext(buckets, i);
      if buckets[i].upperBound.PosInf? {
        infSeen := true;
      }
    }
    assert BucketPoints(p, buckets)[..|buckets|] == BucketPoints(p, buckets) && buckets[..|buckets|] == buckets;
  }

  method WriteNextBucket(name: string, m: Metric, i: nat, p: Printer, w: Writer, ghost o: string, ghost ls: seq<Line>,
                         ghost done: seq<Line>)
    returns (ghost next: seq<Line>)
    requires i < |m.histogram.bucket|
    requires done == PointLines(name, HISTOGRAM, m.labels, m.timestampMs, BucketPoints(p, m.histogram.bucket)[..i])
    requires w.buf == o + Render(p, ls + done)
    modifies w
    ensures next == PointLines(name, HISTOGRAM, m.labels, m.timestampMs, BucketPoints(p, m.histogram.bucket)[..i + 1])
    ensures w.buf == o + Render(p, ls + next)
  {
    ghost var points := BucketPoints(p, m.histogram.bucket);
    var upperBound, count := m.histogram.bucket[i].upperBound, m.histogram.bucket[i].cumulativeCount;
    WriteBucket(name, m, p.show(upperBound), p.fromCount(count), p, w, o, ls + done);
    PointLinesNext(name, HISTOGRAM, m, points, i, ls, done);
    next := done + [PointLine(name, HISTOGRAM, m.labels, m.timestampMs, points[i])];
  }

  lemma InfSeenNext(buckets: seq<Bucket>, i: nat)
    requires i < |buckets|
    ensures InfSeen(buckets[..i + 1]) <==> InfSeen(buckets[..i]) || buckets[i].upperBound.PosInf?
  {
    if InfSeen(buckets[..i]) {
      var j :| 0 <= j < i && buckets[..i][j].upperBound.PosInf?;
      assert buckets[..i + 1][j] == buckets[..i][j];
    }
    if InfSeen(buckets[..i + 1]) {
      var j :| 0 <= j < i + 1 && buckets[..i + 1][j].upperBound.PosInf?;
      assert j < i ==> buckets[..i][j] == buckets[..i + 1][j];
    }
    assert buckets[..i + 1][i] == buckets[i];
  }

  /** The bucket that holds every observation, after the others. */
  method WriteInfinity(name: string, m: Metric, p: Printer, w: Writer, ghost o: string, ghost ls: seq<Line>,
                       ghost done: seq<Line>)
    returns (ghost all: seq<Line>)
    requires !InfSeen(m.histogram.bucket)
    requires done == PointLines(name, HISTOGRAM, m.labels, m.timestampMs, BucketPoints(p, m.histogram.bucket))
    requires w.buf == o + Render(p, ls + done)
    modifies w
    ensures all == PointLines(name, HISTOGRAM, m.labels, m.timestampMs, HistogramPoints(p, m.histogram))
    ensures w.buf == o + Render(p, ls + all)
  {
    ghost var points, n := HistogramPoints(p, m.histogram), |m.histogram.bucket|;
    WriteBucket(name, m, POSITIVE_INF, p.fromCount(m.histogram.sampleCount), p, w, o, ls + done);
    assert points[..n] == BucketPoints(p, m.histogram.bucket) && points[..n + 1] == points;
    PointLinesNext(name, HISTOGRAM, m, points, n, ls, done);
    all := done + [PointLine(name, HISTOGRAM, m.labels, m.timestampMs, points[n])];
  }

  method WriteHistogram(name: string, m: Metric, p: Printer, w: Writer, ghost o: string, ghost ls: seq<Line>)
    requires w.buf == o + Render(p, ls)
    modifies w
    ensures w.buf == o + Render(p, ls + DrawnLines(name, HISTOGRAM, Draw(p, HISTOGRAM, m)))
  {
    var infSeen;
    ghost var done;
    infSeen, done := WriteBuckets(name, m, p, w, o, ls);
    if !infSeen {
      done := WriteInfinity(name, m, p, w, o, ls, done);
    } else {
      Associate(BucketPoints(p, m.histogram.bucket), [], []);
    }
    WriteSumAndCount(name, m, m.histogram.sampleSum, p.fromCount(m.histogram.sampleCount), p, w, o, ls + done);
    HistogramLines(name, m, p, ls, done);
  }

  lemma HistogramLines(name: string, m: Metric, p: Printer, ls: seq<Line>, done: seq<Line>)
    requires done == PointLines(name, HISTOGRAM, m.labels, m.timestampMs, HistogramPoints(p, m.histogram))
    ensures ls + done + [Sample(name + "_sum", m.labels, m.histogram.sampleSum, m.timestampMs),
                         Sample(name + "_count", m.labels, p.fromCount(m.histogram.sampleCount), m.timestampMs)]
         == ls + DrawnLines(name, HISTOGRAM, Draw(p, HISTOGRAM, m))
  {
    var d := Draw(p, HISTOGRAM, m);
    Associate(ls, done, [SumLine(name, d), CountLine(name, d)]);
  }

  method WriteQuantiles(name: string, m: Metric, p: Printer, w: Writer, ghost o: string, ghost ls: seq<Line>)
    returns (ghost done: seq<Line>)
    requires w.buf == o + Render(p, ls)
    modifies w
    ensures done == PointLines(name, SUMMARY, m.labels, m.timestampMs, QuantilePoints(p, m.summary.quantile))
    ensures w.buf == o + Render(p, ls + done)
  {
    var quantiles := m.summary.quantile;
    ghost var points := QuantilePoints(p, quantiles);
    Associate(ls, [], []);
    Associate(name, "", "");
    done := [];
    for i := 0 to |quantiles|
      invariant done == PointLines(name, SUMMARY, m.labels, m.timestampMs, points[..i])
      invariant w.buf == o + Render(p, ls + done)
    {
      var extra := LabelPair(QUANTILE, p.show(quantiles[i].quantile));
      WriteSample(name, "", m, Some(extra), quantiles[i].value, p, w, o, ls + done);
      PointLinesNext(name, SUMMARY, m, points, i, ls, done);
      done := done + [PointLine(name, SUMMARY, m.labels, m.timestampMs, points[i])];
    }
    assert points[..|points|] == points;
  }

  method WriteSummary(name: string, m: Metric, p: Printer, w: Writer, ghost o: string, ghost ls: seq<Line>)
    requires w.buf == o + Render(p, ls)
    modifies w
    ensures w.buf == o + Render(p, ls + DrawnLines(name, SUMMARY, Draw(p, SUMMARY, m)))
  {
    ghost var done := WriteQuantiles(name, m, p, w, o, ls);
    WriteSumAndCount(name, m, m.summary.sampleSum, p.fromCount(m.summary.sampleCount), p, w, o, ls + done);
    SummaryLines(name, m, p, ls, done);
  }

  lemma SummaryLines(name: string, m: Metric, p: Printer, ls: seq<Line>, done: seq<Line>)
    requires done == PointLines(name, SUMMARY, m.labels, m.timestampMs, QuantilePoints(p, m.summary.quantile))
    ensures ls + done + [Sample(name + "_sum", m.labels, m.summary.sampleSum, m.timestampMs),
                         Sample(name + "_count", m.labels, p.fromCount(m.summary.sampleCount), m.timestampMs)]
         == ls + DrawnLines(name, SUMMARY, Draw(p, SUMMARY, m))
  {
    var d := Draw(p, SUMMARY, m);
    Associate(ls, done, [SumLine(name, d), CountLine(name, d)]);
  }

  /** Untyped metrics are not implemented: `false`, and nothing is written. */
  method WriteMetric(name: string, t: MetricType, m: Metric, p: Printer, w: Writer, ghost o: string, ghost ls: seq<Line>)
    returns (ok: bool)
    requires w.buf == o + Render(p, ls)
    modifies w
    ensures ok == !t.UNTYPED?
    ensures w.buf == o + Render(p, if ok then ls + DrawnLines(name, t, Draw(p, t, m)) else ls)
  {
    ok := true;
    assert name + "" == name && WithExtra(m.labels, None) == m.labels;
    match t
    case COUNTER => WriteSample(name, "", m, None, m.counter, p, w, o, ls);
    case GAUGE => WriteSample(name, "", m, None, m.gauge, p, w, o, ls);
    case HISTOGRAM => WriteHistogram(name, m, p, w, o, ls);
    case SUMMARY => WriteSummary(name, m, p, w, o, ls);
    case UNTYPED => ok := false;
  }

  // ---- Families -------------------------------------------------------------------------------------------

  datatype Error = Refused(refusal: Refusal) | Unimplemented

  function Check(mf: MetricFamily): Result<(), Error> {
    match CheckMetricFamily(|mf.metric|, mf.name)
    case Err(refusal) => Err(Refused(refusal))
    case Ok(_) => if mf.fieldType.UNTYPED? then Err(Unimplemented) else Ok(())
  }

  /** The lines written for a family: none if it is refused, the header alone if its type is not implemented. */
  function Written(p: Printer, mf: MetricFamily): seq<Line> {
    match Check(mf)
    case Ok(_) => FamilyLines(p, mf)
    case Err(e) => if e.Unimplemented? then HeaderLines(mf) else []
  }

  method WriteHeader(mf: MetricFamily, p: Printer, w: Writer, ghost o: string, ghost ls: seq<Line>)
    requires w.buf == o + Render(p, ls)
    modifies w
    ensures w.buf == o + Render(p, ls + HeaderLines(mf))
  {
    ghost var ls1 := ls + HelpLines(mf);
    var name, help := mf.name, mf.help;
    if help != "" {
      var escaped := EscapeString(help, false);
      WriteWords(HELP, name, escaped, w);
      RenderNext(p, ls, HelpLine(name, help));
      Associate(o, Render(p, ls), ShowLine(p, HelpLine(name, help)) + "\n");
    } else {
      Associate(ls, [], []);
    }
    WriteWords(TYPE, name, TypeName(mf.fieldType), w);
    RenderNext(p, ls1, TypeLine(name, mf.fieldType));
    Associate(o, Render(p, ls1), ShowLine(p, TypeLine(name, mf.fieldType)) + "\n");
    Associate(ls, HelpLines(mf), [TypeLine(name, mf.fieldType)]);
  }

  method WriteWords(start: string, name: string, text: string, w: Writer)
    modifies w
    ensures w.buf == old(w.buf) + (start + name + " " + text + "\n")
  {
    ghost var o := w.buf;
    w.WriteAll(start);
    w.WriteAll(name);
    w.WriteAll(" ");
    w.WriteAll(text);
    w.WriteAll("\n");
    Associate(o, start, name);
    Associate(o, start + name, " ");
    Associate(o, start + name + " ", text);
    Associate(o, start + name + " " + text, "\n");
  }

  lemma MetricLinesNext(p: Printer, name: string, t: MetricType, ms: seq<Metric>, i: nat, ls: seq<Line>)
    requires i < |ms|
    ensures ls + MetricLines(p, name, t, ms[..i]) + DrawnLines(name, t, Draw(p, t, ms[i]))
         == ls + MetricLines(p, name, t, ms[..i + 1])
  {
    assert ms[..i + 1][..i] == ms[..i];
    Associate(ls, MetricLines(p, name, t, ms[..i]), DrawnLines(name, t, Draw(p, t, ms[i])));
  }

  /** All the metrics, or none where the type is not implemented. */
  method WriteMetrics(name: string, t: MetricType, ms: seq<Metric>, p: Printer, w: Writer, ghost o: string,
                      ghost ls: seq<Line>)
    returns (ok: bool)
    requires w.buf == o + Render(p, ls)
    modifies w
    ensures ok == (ms == [] || !t.UNTYPED?)
    ensures w.buf == o + Render(p, if ok then ls + MetricLines(p, name, t, ms) else ls)
  {
    Associate(ls, [], []);
    assert ms[..0] == [];
    for i := 0 to |ms|
      invariant i > 0 ==> !t.UNTYPED?
      invariant w.buf == o + Render(p, ls + MetricLines(p, name, t, ms[..i]))
    {
      ok := WriteMetric(name, t, ms[i], p, w, o, ls + MetricLines(p, name, t, ms[..i]));
      if !ok {
        return false;
      }
      MetricLinesNext(p, name, t, ms, i, ls);
    }
    assert ms[..|ms|] == ms;
    ok := true;
  }

  method EncodeFamily(mf: MetricFamily, p: Printer, w: Writer, ghost o: string, ghost ls: seq<Line>)
    returns (r: Result<(), Error>)
    requires w.buf == o + Render(p, ls)
    modifies w
    ensures r == Check(mf)
    ensures w.buf == o + Render(p, ls + Written(p, mf))
  {
    Associate(ls, [], []);
    var check := CheckMetricFamily(|mf.metric|, mf.name);
    if check.Err? {
      return Err(Refused(check.error));
    }
    WriteHeader(mf, p, w, o, ls);
    var ok := WriteMetrics(mf.name, mf.fieldType, mf.metric, p, w, o, ls + HeaderLines(mf));
    Associate(ls, HeaderLines(mf), MetricLines(p, mf.name, mf.fieldType, mf.metric));
    r := if ok then Ok(()) else Err(Unimplemented);
  }

  lemma LinesNext(p: Printer, mfs: seq<MetricFamily>, i: nat)
    requires i < |mfs| && Check(mfs[i]).Ok?
    ensures Lines(p, mfs[..i + 1]) == Lines(p, mfs[..i]) + Written(p, mfs[i])
  {
    assert mfs[..i + 1][..i] == mfs[..i];
  }

  /** The lines written for families up to the first that fails. */
  function AllWritten(p: Printer, mfs: seq<MetricFamily>): seq<Line> {
    var k := Accepted(Check, mfs);
    Lines(p, mfs[..k]) + if k < |mfs| then Written(p, mfs[k]) else []
  }

  lemma AllWrittenAt(p: Printer, mfs: seq<MetricFamily>, i: nat)
    requires i <= Accepted(Check, mfs)
    ensures i == |mfs| ==> AllWritten(p, mfs) == Lines(p, mfs[..i])
    ensures i < |mfs| && Check(mfs[i]).Err? ==>
              Accepted(Check, mfs) == i && AllWritten(p, mfs) == Lines(p, mfs[..i]) + Written(p, mfs[i])
    ensures i < |mfs| && Check(mfs[i]).Ok? ==> i < Accepted(Check, mfs)
  {
    Associate(Lines(p, mfs[..i]), [], []);
  }

  method EncodeNext(mfs: seq<MetricFamily>, i: nat, p: Printer, w: Writer, ghost o: string)
    returns (r: Result<(), Error>, ghost lines: seq<Line>)
    requires i < |mfs| && i <= Accepted(Check, mfs) && w.buf == o + Render(p, Lines(p, mfs[..i]))
    modifies w
    ensures r == Check(mfs[i]) && w.buf == o + Render(p, lines)
    ensures r.Ok? ==> i < Accepted(Check, mfs) && lines == Lines(p, mfs[..i + 1])
    ensures r.Err? ==> i == Accepted(Check, mfs) && lines == AllWritten(p, mfs)
  {
    AllWrittenAt(p, mfs, i);
    lines := Lines(p, mfs[..i]);
    r := EncodeFamily(mfs[i], p, w, o, lines);
    lines := lines + Written(p, mfs[i]);
    if r.Ok? {
      LinesNext(p, mfs, i);
    }
  }

  /** Families are written one after another until one fails; what was written before stays. */
  method EncodeImpl(mfs: seq<MetricFamily>, p: Printer, w: Writer) returns (r: Result<(), Error>)
    modifies w
    ensures r == if Accepted(Check, mfs) < |mfs| then Check(mfs[Accepted(Check, mfs)]) else Ok(())
    ensures w.buf == old(w.buf) + Render(p, AllWritten(p, mfs))
  {
    ghost var o := w.buf;
    Associate(o, [], []);
    ghost var lines := Lines(p, mfs[..0]);
    for i := 0 to |mfs|
      invariant i <= Accepted(Check, mfs)
      invariant lines == Lines(p, mfs[..i]) && w.buf == o + Render(p, lines)
    {
      r, lines := EncodeNext(mfs, i, p, w, o);
      if r.Err? {
        return r;
      }
    }
    AllWrittenAt(p, mfs, |mfs|);
    r := Ok(());
  }

  /** What a reader gets of an encoding that succeeds. */
  lemma EncodedReads(mfs: seq<MetricFamily>, p: Printer)
    requires forall i :: 0 <= i < |mfs| ==> GoodFamily(p, mfs[i])
    requires Accepted(Check, mfs) == |mfs|
    ensures ReadExposition(p, Render(p, AllWritten(p, mfs))) == Some(ToldFamilies(p, mfs))
  {
    assert mfs[..|mfs|] == mfs;
    AllWrittenAt(p, mfs, |mfs|);
    ExpositionRoundTrip(p, mfs);
  }
}
