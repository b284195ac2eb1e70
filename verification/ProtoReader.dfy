/** The parse loops of the messages: each reads fields until its limit and passes over those it does not know. */
module ProtoReader {
  import opened Wrappers
  import opened Wire
  import opened ProtoModel
  import opened ProtoStreams

  /** The field with this tag: its value is read and put into the message, passed over, or refused. */
  method FieldLabel(number: nat, wireType: nat, input: CodedInputStream, m: LabelPair) returns (r: Option<LabelPair>)
    requires input.Valid()
    modifies input
    ensures input.Valid() && (r.Some? ==> input.limit == old(input.limit))
    ensures match DecodeValue(wireType, old(input.Rest()))
            case None => r.None?
            case Some((v, rest)) => r == ApplyLabel(m, Field(number, v)) && (r.Some? ==> input.Rest() == rest)
  {
    if number == 1 {
      if wireType != 2 {
        return None;
      }
      var tmp := input.ReadString();
      if tmp.None? {
        return None;
      }
      r := Some(m.(name := tmp));
    } else if number == 2 {
      if wireType != 2 {
        return None;
      }
      var tmp := input.ReadString();
      if tmp.None? {
        return None;
      }
      r := Some(m.(value := tmp));
    } else {
      var ok := input.SkipValue(wireType);
      r := if ok then Some(m) else None;
    }
  }

  method MergeLabel(input: CodedInputStream) returns (r: Option<LabelPair>)
    requires input.Valid()
    modifies input
    ensures input.Valid() && (r.Some? ==> input.limit == old(input.limit))
    ensures r == ParseLabel(old(input.Rest()))
    ensures r.Some? ==> input.Eof()
  {
    var m := EMPTY_LABEL;
    while !input.Eof()
      invariant input.Valid() && input.limit == old(input.limit)
      invariant ParseLabel(old(input.Rest())) == MergeBytes(ApplyLabel, m, input.Rest())
      decreases |input.Rest()|
    {
      MergeStep(ApplyLabel, m, input.Rest());
      var tag := input.ReadTagUnpack();
      if tag.None? {
        return None;
      }
      var next := FieldLabel(tag.value.0, tag.value.1, input, m);
      if next.None? {
        return None;
      }
      m := next.value;
    }
    r := Some(m);
  }

  /** The field with this tag: its value is read and put into the message, passed over, or refused. */
  method FieldNumber(number: nat, wireType: nat, input: CodedInputStream, m: Number) returns (r: Option<Number>)
    requires input.Valid()
    modifies input
    ensures input.Valid() && (r.Some? ==> input.limit == old(input.limit))
    ensures match DecodeValue(wireType, old(input.Rest()))
            case None => r.None?
            case Some((v, rest)) => r == ApplyNumber(m, Field(number, v)) && (r.Some? ==> input.Rest() == rest)
  {
    if number == 1 {
      if wireType != 1 {
        return None;
      }
      var tmp := input.ReadDouble();
      if tmp.None? {
        return None;
      }
      r := Some(m.(value := tmp));
    } else {
      var ok := input.SkipValue(wireType);
      r := if ok then Some(m) else None;
    }
  }

  method MergeNumber(input: CodedInputStream) returns (r: Option<Number>)
    requires input.Valid()
    modifies input
    ensures input.Valid() && (r.Some? ==> input.limit == old(input.limit))
    ensures r == ParseNumber(old(input.Rest()))
    ensures r.Some? ==> input.Eof()
  {
    var m := EMPTY_NUMBER;
    while !input.Eof()
      invariant input.Valid() && input.limit == old(input.limit)
      invariant ParseNumber(old(input.Rest())) == MergeBytes(ApplyNumber, m, input.Rest())
      decreases |input.Rest()|
    {
      MergeStep(ApplyNumber, m, input.Rest());
      var tag := input.ReadTagUnpack();
      if tag.None? {
        return None;
      }
      var next := FieldNumber(tag.value.0, tag.value.1, input, m);
      if next.None? {
        return None;
      }
      m := next.value;
    }
    r := Some(m);
  }

  /** The field with this tag: its value is read and put into the message, passed over, or refused. */
  method FieldQuantile(number: nat, wireType: nat, input: CodedInputStream, m: Quantile) returns (r: Option<Quantile>)
    requires input.Valid()
    modifies input
    ensures input.Valid() && (r.Some? ==> input.limit == old(input.limit))
    ensures match DecodeValue(wireType, old(input.Rest()))
            case None => r.None?
            case Some((v, rest)) => r == ApplyQuantile(m, Field(number, v)) && (r.Some? ==> input.Rest() == rest)
  {
    if number == 1 {
      if wireType != 1 {
        return None;
      }
      var tmp := input.ReadDouble();
      if tmp.None? {
        return None;
      }
      r := Some(m.(quantile := tmp));
    } else if number == 2 {
      if wireType != 1 {
        return None;
      }
      var tmp := input.ReadDouble();
      if tmp.None? {
        return None;
      }
      r := Some(m.(value := tmp));
    } else {
      var ok := input.SkipValue(wireType);
      r := if ok then Some(m) else None;
    }
  }

  method MergeQuantile(input: CodedInputStream) returns (r: Option<Quantile>)
    requires input.Valid()
    modifies input
    ensures input.Valid() && (r.Some? ==> input.limit == old(input.limit))
    ensures r == ParseQuantile(old(input.Rest()))
    ensures r.Some? ==> input.Eof()
  {
    var m := EMPTY_QUANTILE;
    while !input.Eof()
      invariant input.Valid() && input.limit == old(input.limit)
      invariant ParseQuantile(old(input.Rest())) == MergeBytes(ApplyQuantile, m, input.Rest())
      decreases |input.Rest()|
    {
      MergeStep(ApplyQuantile, m, input.Rest());
      var tag := input.ReadTagUnpack();
      if tag.None? {
        return None;
      }
      var next := FieldQuantile(tag.value.0, tag.value.1, input, m);
      if next.None? {
        return None;
      }
      m := next.value;
    }
    r := Some(m);
  }

  /** The field with this tag: its value is read and put into the message, passed over, or refused. */
  method FieldBucket(number: nat, wireType: nat, input: CodedInputStream, m: Bucket) returns (r: Option<Bucket>)
    requires input.Valid()
    modifies input
    ensures input.Valid() && (r.Some? ==> input.limit == old(input.limit))
    ensures match DecodeValue(wireType, old(input.Rest()))
            case None => r.None?
            case Some((v, rest)) => r == ApplyBucket(m, Field(number, v)) && (r.Some? ==> input.Rest() == rest)
  {
    if number == 1 {
      if wireType != 0 {
        return None;
      }
      var tmp := input.ReadUint64();
      if tmp.None? {
        return None;
      }
      r := Some(m.(cumulativeCount := tmp));
    } else if number == 2 {
      if wireType != 1 {
        return None;
      }
      var tmp := input.ReadDouble();
      if tmp.None? {
        return None;
      }
      r := Some(m.(upperBound := tmp));
    } else {
      var ok := input.SkipValue(wireType);
      r := if ok then Some(m) else None;
    }
  }

  method MergeBucket(input: CodedInputStream) returns (r: Option<Bucket>)
    requires input.Valid()
    modifies input
    ensures input.Valid() && (r.Some? ==> input.limit == old(input.limit))
    ensures r == ParseBucket(old(input.Rest()))
    ensures r.Some? ==> input.Eof()
  {
    var m := EMPTY_BUCKET;
    while !input.Eof()
      invariant input.Valid() && input.limit == old(input.limit)
      invariant ParseBucket(old(input.Rest())) == MergeBytes(ApplyBucket, m, input.Rest())
      decreases |input.Rest()|
    {
      MergeStep(ApplyBucket, m, input.Rest());
      var tag := input.ReadTagUnpack();
      if tag.None? {
        return None;
      }
      var next := FieldBucket(tag.value.0, tag.value.1, input, m);
      if next.None? {
        return None;
      }
      m := next.value;
    }
    r := Some(m);
  }

  /** A nested message: its length, then its fields up to there. */
  method ReadLabel(wireType: nat, input: CodedInputStream) returns (r: Option<LabelPair>)
    requires input.Valid()
    modifies input
    ensures r.Some? ==> input.limit == old(input.limit)
    ensures input.Valid()
    ensures wireType != 2 ==> r.None?
    ensures wireType == 2 ==>
              match DecodeBytes(old(input.Rest()))
              case None => r.None?
              case Some((body, rest)) => r == ParseLabel(body) && (r.Some? ==> input.Rest() == rest)
  {
    if wireType != 2 {
      return None;
    }
    var outer := input.PushLimit();
    if outer.None? {
      return None;
    }
    r := MergeLabel(input);
    if r.Some? {
      input.PopLimit(outer.value);
    }
  }

  /** A nested message: its length, then its fields up to there. */
  method ReadNumber(wireType: nat, input: CodedInputStream) returns (r: Option<Number>)
    requires input.Valid()
    modifies input
    ensures r.Some? ==> input.limit == old(input.limit)
    ensures input.Valid()
    ensures wireType != 2 ==> r.None?
    ensures wireType == 2 ==>
              match DecodeBytes(old(input.Rest()))
              case None => r.None?
              case Some((body, rest)) => r == ParseNumber(body) && (r.Some? ==> input.Rest() == rest)
  {
    if wireType != 2 {
      return None;
    }
    var outer := input.PushLimit();
    if outer.None? {
      return None;
    }
    r := MergeNumber(input);
    if r.Some? {
      input.PopLimit(outer.value);
    }
  }

  /** A nested message: its length, then its fields up to there. */
  method ReadQuantile(wireType: nat, input: CodedInputStream) returns (r: Option<Quantile>)
    requires input.Valid()
    modifies input
    ensures r.Some? ==> input.limit == old(input.limit)
    ensures input.Valid()
    ensures wireType != 2 ==> r.None?
    ensures wireType == 2 ==>
              match DecodeBytes(old(input.Rest()))
              case None => r.None?
              case Some((body, rest)) => r == ParseQuantile(body) && (r.Some? ==> input.Rest() == rest)
  {
    if wireType != 2 {
      return None;
    }
    var outer := input.PushLimit();
    if outer.None? {
      return None;
    }
    r := MergeQuantile(input);
    if r.Some? {
      input.PopLimit(outer.value);
    }
  }

  /** A nested message: its length, then its fields up to there. */
  method ReadBucket(wireType: nat, input: CodedInputStream) returns (r: Option<Bucket>)
    requires input.Valid()
    modifies input
    ensures r.Some? ==> input.limit == old(input.limit)
    ensures input.Valid()
    ensures wireType != 2 ==> r.None?
    ensures wireType == 2 ==>
              match DecodeBytes(old(input.Rest()))
              case None => r.None?
              case Some((body, rest)) => r == ParseBucket(body) && (r.Some? ==> input.Rest() == rest)
  {
    if wireType != 2 {
      return None;
    }
    var outer := input.PushLimit();
    if outer.None? {
      return None;
    }
    r := MergeBucket(input);
    if r.Some? {
      input.PopLimit(outer.value);
    }
  }

  /** The field with this tag: its value is read and put into the message, passed over, or refused. */
  method FieldSummary(number: nat, wireType: nat, input: CodedInputStream, m: Summary) returns (r: Option<Summary>)
    requires input.Valid()
    modifies input
    ensures input.Valid() && (r.Some? ==> input.limit == old(input.limit))
    ensures match DecodeValue(wireType, old(input.Rest()))
            case None => r.None?
            case Some((v, rest)) =>
              r == ApplySummary(QUANTILE_CODEC, m, Field(number, v)) && (r.Some? ==> input.Rest() == rest)
  {
    if number == 1 {
      if wireType != 0 {
        return None;
      }
      var tmp := input.ReadUint64();
      if tmp.None? {
        return None;
      }
      r := Some(m.(sampleCount := tmp));
    } else if number == 2 {
      if wireType != 1 {
        return None;
      }
      var tmp := input.ReadDouble();
      if tmp.None? {
        return None;
      }
      r := Some(m.(sampleSum := tmp));
    } else if number == 3 {
      var tmp := ReadQuantile(wireType, input);
      if tmp.None? {
        return None;
      }
      r := Some(m.(quantile := m.quantile + [tmp.value]));
    } else {
      var ok := input.SkipValue(wireType);
      r := if ok then Some(m) else None;
    }
  }

  method MergeSummary(input: CodedInputStream) returns (r: Option<Summary>)
    requires input.Valid()
    modifies input
    ensures input.Valid() && (r.Some? ==> input.limit == old(input.limit))
    ensures r == ParseSummary(old(input.Rest()))
    ensures r.Some? ==> input.Eof()
  {
    var m := EMPTY_SUMMARY;
    while !input.Eof()
      invariant input.Valid() && input.limit == old(input.limit)
      invariant ParseSummary(old(input.Rest())) == MergeBytes(SummaryReader(QUANTILE_CODEC), m, input.Rest())
      decreases |input.Rest()|
    {
      MergeStep(SummaryReader(QUANTILE_CODEC), m, input.Rest());
      var tag := input.ReadTagUnpack();
      if tag.None? {
        return None;
      }
      var next := FieldSummary(tag.value.0, tag.value.1, input, m);
      if next.None? {
        return None;
      }
      m := next.value;
    }
    r := Some(m);
  }

  /** The field with this tag: its value is read and put into the message, passed over, or refused. */
  method FieldHistogram(number: nat, wireType: nat, input: CodedInputStream, m: Histogram) returns (r: Option<Histogram>)
    requires input.Valid()
    modifies input
    ensures input.Valid() && (r.Some? ==> input.limit == old(input.limit))
    ensures match DecodeValue(wireType, old(input.Rest()))
            case None => r.None?
            case Some((v, rest)) =>
              r == ApplyHistogram(BUCKET_CODEC, m, Field(number, v)) && (r.Some? ==> input.Rest() == rest)
  {
    if number == 1 {
      if wireType != 0 {
        return None;
      }
      var tmp := input.ReadUint64();
      if tmp.None? {
        return None;
      }
      r := Some(m.(sampleCount := tmp));
    } else if number == 2 {
      if wireType != 1 {
        return None;
      }
      var tmp := input.ReadDouble();
      if tmp.None? {
        return None;
      }
      r := Some(m.(sampleSum := tmp));
    } else if number == 3 {
      var tmp := ReadBucket(wireType, input);
      if tmp.None? {
        return None;
      }
      r := Some(m.(bucket := m.bucket + [tmp.value]));
    } else {
      var ok := input.SkipValue(wireType);
      r := if ok then Some(m) else None;
    }
  }

  method MergeHistogram(input: CodedInputStream) returns (r: Option<Histogram>)
    requires input.Valid()
    modifies input
    ensures input.Valid() && (r.Some? ==> input.limit == old(input.limit))
    ensures r == ParseHistogram(old(input.Rest()))
    ensures r.Some? ==> input.Eof()
  {
    var m := EMPTY_HISTOGRAM;
    while !input.Eof()
      invariant input.Valid() && input.limit == old(input.limit)
      invariant ParseHistogram(old(input.Rest())) == MergeBytes(HistogramReader(BUCKET_CODEC), m, input.Rest())
      decreases |input.Rest()|
    {
      MergeStep(HistogramReader(BUCKET_CODEC), m, input.Rest());
      var tag := input.ReadTagUnpack();
      if tag.None? {
        return None;
      }
      var next := FieldHistogram(tag.value.0, tag.value.1, input, m);
      if next.None? {
        return None;
      }
      m := next.value;
    }
    r := Some(m);
  }

  /** A nested message: its length, then its fields up to there. */
  method ReadSummary(wireType: nat, input: CodedInputStream) returns (r: Option<Summary>)
    requires input.Valid()
    modifies input
    ensures r.Some? ==> input.limit == old(input.limit)
    ensures input.Valid()
    ensures wireType != 2 ==> r.None?
    ensures wireType == 2 ==>
              match DecodeBytes(old(input.Rest()))
              case None => r.None?
              case Some((body, rest)) => r == ParseSummary(body) && (r.Some? ==> input.Rest() == rest)
  {
    if wireType != 2 {
      return None;
    }
    var outer := input.PushLimit();
    if outer.None? {
      return None;
    }
    r := MergeSummary(input);
    if r.Some? {
      input.PopLimit(outer.value);
    }
  }

  /** A nested message: its length, then its fields up to there. */
  method ReadHistogram(wireType: nat, input: CodedInputStream) returns (r: Option<Histogram>)
    requires input.Valid()
    modifies input
    ensures r.Some? ==> input.limit == old(input.limit)
    ensures input.Valid()
    ensures wireType != 2 ==> r.None?
    ensures wireType == 2 ==>
              match DecodeBytes(old(input.Rest()))
              case None => r.None?
              case Some((body, rest)) => r == ParseHistogram(body) && (r.Some? ==> input.Rest() == rest)
  {
    if wireType != 2 {
      return None;
    }
    var outer := input.PushLimit();
    if outer.None? {
      return None;
    }
    r := MergeHistogram(input);
    if r.Some? {
      input.PopLimit(outer.value);
    }
  }

  /** The field with this tag: its value is read and put into the message, passed over, or refused. */
  method FieldMetric(number: nat, wireType: nat, input: CodedInputStream, m: Metric) returns (r: Option<Metric>)
    requires input.Valid()
    modifies input
    ensures input.Valid() && (r.Some? ==> input.limit == old(input.limit))
    ensures match DecodeValue(wireType, old(input.Rest()))
            case None => r.None?
            case Some((v, rest)) => r == ApplyMetric(METRIC_PARTS, m, Field(number, v)) && (r.Some? ==> input.Rest() == rest)
  {
    if number == 1 {
      var tmp := ReadLabel(wireType, input);
      if tmp.None? {
        return None;
      }
      r := Some(m.(labels := m.labels + [tmp.value]));
    } else if number == 2 {
      var tmp := ReadNumber(wireType, input);
      if tmp.None? {
        return None;
      }
      r := Some(m.(gauge := tmp));
    } else if number == 3 {
      var tmp := ReadNumber(wireType, input);
      if tmp.None? {
        return None;
      }
      r := Some(m.(counter := tmp));
    } else if number == 4 {
      var tmp := ReadSummary(wireType, input);
      if tmp.None? {
        return None;
      }
      r := Some(m.(summary := tmp));
    } else if number == 5 {
      var tmp := ReadNumber(wireType, input);
      if tmp.None? {
        return None;
      }
      r := Some(m.(untyped := tmp));
    } else if number == 7 {
      var tmp := ReadHistogram(wireType, input);
      if tmp.None? {
        return None;
      }
      r := Some(m.(histogram := tmp));
    } else if number == 6 {
      if wireType != 0 {
        return None;
      }
      var tmp := input.ReadUint64();
      if tmp.None? {
        return None;
      }
      r := Some(m.(timestampMs := Some(I64From(tmp.value))));
    } else {
      var ok := input.SkipValue(wireType);
      r := if ok then Some(m) else None;
    }
  }

  method MergeMetric(input: CodedInputStream) returns (r: Option<Metric>)
    requires input.Valid()
    modifies input
    ensures input.Valid() && (r.Some? ==> input.limit == old(input.limit))
    ensures r == ParseMetric(old(input.Rest()))
    ensures r.Some? ==> input.Eof()
  {
    var m := EMPTY_METRIC;
    while !input.Eof()
      invariant input.Valid() && input.limit == old(input.limit)
      invariant ParseMetric(old(input.Rest())) == MergeBytes(MetricReader(METRIC_PARTS), m, input.Rest())
      decreases |input.Rest()|
    {
      MergeStep(MetricReader(METRIC_PARTS), m, input.Rest());
      var tag := input.ReadTagUnpack();
      if tag.None? {
        return None;
      }
      var next := FieldMetric(tag.value.0, tag.value.1, input, m);
      if next.None? {
        return None;
      }
      m := next.value;
    }
    r := Some(m);
  }

  /** A nested message: its length, then its fields up to there. */
  method ReadMetric(wireType: nat, input: CodedInputStream) returns (r: Option<Metric>)
    requires input.Valid()
    modifies input
    ensures r.Some? ==> input.limit == old(input.limit)
    ensures input.Valid()
    ensures wireType != 2 ==> r.None?
    ensures wireType == 2 ==>
              match DecodeBytes(old(input.Rest()))
              case None => r.None?
              case Some((body, rest)) => r == ParseMetric(body) && (r.Some? ==> input.Rest() == rest)
  {
    if wireType != 2 {
      return None;
    }
    var outer := input.PushLimit();
    if outer.None? {
      return None;
    }
    r := MergeMetric(input);
    if r.Some? {
      input.PopLimit(outer.value);
    }
  }

  /** The field with this tag: its value is read and put into the message, passed over, or refused. */
  method FieldFamily(number: nat, wireType: nat, input: CodedInputStream, m: MetricFamily) returns (r: Option<MetricFamily>)
    requires input.Valid()
    modifies input
    ensures input.Valid() && (r.Some? ==> input.limit == old(input.limit))
    ensures match DecodeValue(wireType, old(input.Rest()))
            case None => r.None?
            case Some((v, rest)) => r == ApplyFamily(METRIC_CODEC, m, Field(number, v)) && (r.Some? ==> input.Rest() == rest)
  {
    if number == 1 {
      if wireType != 2 {
        return None;
      }
      var tmp := input.ReadString();
      if tmp.None? {
        return None;
      }
      r := Some(m.(name := tmp));
    } else if number == 2 {
      if wireType != 2 {
        return None;
      }
      var tmp := input.ReadString();
      if tmp.None? {
        return None;
      }
      r := Some(m.(help := tmp));
    } else if number == 3 {
      if wireType != 0 {
        return None;
      }
      var tmp := input.ReadUint64();
      if tmp.None? {
        return None;
      }
      var t := TypeFrom(tmp.value);
      r := Some(if t.None? then m else m.(fieldType := t));
    } else if number == 4 {
      var tmp := ReadMetric(wireType, input);
      if tmp.None? {
        return None;
      }
      r := Some(m.(metric := m.metric + [tmp.value]));
    } else {
      var ok := input.SkipValue(wireType);
      r := if ok then Some(m) else None;
    }
  }

  method MergeFamily(input: CodedInputStream) returns (r: Option<MetricFamily>)
    requires input.Valid()
    modifies input
    ensures input.Valid() && (r.Some? ==> input.limit == old(input.limit))
    ensures r == ParseFamily(old(input.Rest()))
    ensures r.Some? ==> input.Eof()
  {
    var m := EMPTY_FAMILY;
    while !input.Eof()
      invariant input.Valid() && input.limit == old(input.limit)
      invariant ParseFamily(old(input.Rest())) == MergeBytes(FamilyReader(METRIC_CODEC), m, input.Rest())
      decreases |input.Rest()|
    {
      MergeStep(FamilyReader(METRIC_CODEC), m, input.Rest());
      var tag := input.ReadTagUnpack();
      if tag.None? {
        return None;
      }
      var next := FieldFamily(tag.value.0, tag.value.1, input, m);
      if next.None? {
        return None;
      }
      m := next.value;
    }
    r := Some(m);
  }
}
