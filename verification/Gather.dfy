/** Gathering: families of the same name are merged, metrics and families sorted, prefix and labels added. */
module Gather {
  import opened Wrappers
  import opened Order
  import opened Model

  // ---- The order of metrics -------------------------------------------------------------------------------

  /** The first pair of different label values decides. */
  function CompareValues(a: seq<LabelPair>, b: seq<LabelPair>): Ordering
    requires |a| == |b|
  {
    if a == [] then Equal
    else if a[0].value != b[0].value then CompareStrings(a[0].value, b[0].value)
    else CompareValues(a[1..], b[1..])
  }

  /** The number of labels, then the label values, then the timestamp. */
  function CompareMetrics(a: Metric, b: Metric): Ordering {
    if |a.labels| != |b.labels| then CompareInts(|a.labels|, |b.labels|)
    else CompareValues(a.labels, b.labels).Then(CompareInts(a.timestampMs, b.timestampMs))
  }

  predicate AtMost(a: Metric, b: Metric) {
    !CompareMetrics(a, b).Greater?
  }

  lemma {:induction false} ValuesReverse(a: seq<LabelPair>, b: seq<LabelPair>)
    requires |a| == |b|
    ensures CompareValues(b, a) == CompareValues(a, b).Reverse()
  {
    if a != [] {
      StringsTotal(a[0].value, b[0].value);
      ValuesReverse(a[1..], b[1..]);
    }
  }

  lemma {:induction false} ValuesTransitive(a: seq<LabelPair>, b: seq<LabelPair>, c: seq<LabelPair>)
    requires |a| == |b| == |c|
    requires !CompareValues(a, b).Greater? && !CompareValues(b, c).Greater?
    ensures CompareValues(a, c) == CompareValues(a, b).Then(CompareValues(b, c))
  {
    if a != [] {
      var x, y, z := a[0].value, b[0].value, c[0].value;
      StringsTotal(x, y);
      StringsTotal(y, z);
      StringsTotal(x, z);
      if x == y == z {
        ValuesTransitive(a[1..], b[1..], c[1..]);
      } else if x != y && y != z {
        StringsTransitive(x, y, z);
      }
    }
  }

  /** The comparator is a total preorder: reversing swaps the verdict, and verdicts chain. */
  lemma MetricsReverse(a: Metric, b: Metric)
    ensures CompareMetrics(b, a) == CompareMetrics(a, b).Reverse()
  {
    if |a.labels| == |b.labels| {
      ValuesReverse(a.labels, b.labels);
    }
  }

  lemma MetricsTransitive(a: Metric, b: Metric, c: Metric)
    requires AtMost(a, b) && AtMost(b, c)
    ensures AtMost(a, c)
    ensures CompareMetrics(a, c).Equal? <==> CompareMetrics(a, b).Equal? && CompareMetrics(b, c).Equal?
  {
    if |a.labels| == |b.labels| == |c.labels| {
      ValuesTransitive(a.labels, b.labels, c.labels);
    }
  }

  /** The values agree before place `k`, and there `a` has the smaller one. */
  ghost predicate ValuesBeforeAt(a: seq<LabelPair>, b: seq<LabelPair>, k: nat) {
    && k < |a| && k < |b|
    && (forall j :: 0 <= j < k ==> a[j].value == b[j].value)
    && Before(a[k].value, b[k].value)
  }

  predicate SameValues(a: seq<LabelPair>, b: seq<LabelPair>) {
    |a| == |b| && forall j :: 0 <= j < |a| ==> a[j].value == b[j].value
  }

  /** Fewer labels come first, then the smaller first different value, then the earlier timestamp. */
  lemma MetricsAscend(a: Metric, b: Metric)
    ensures CompareMetrics(a, b).Less? <==>
              || |a.labels| < |b.labels|
              || (|a.labels| == |b.labels| && exists k: nat :: ValuesBeforeAt(a.labels, b.labels, k))
              || (SameValues(a.labels, b.labels) && a.timestampMs < b.timestampMs)
    ensures CompareMetrics(a, b).Equal? <==> SameValues(a.labels, b.labels) && a.timestampMs == b.timestampMs
  {
    if |a.labels| == |b.labels| {
      ValuesAscend(a.labels, b.labels);
    }
  }

  lemma {:induction false} ValuesAscend(a: seq<LabelPair>, b: seq<LabelPair>)
    requires |a| == |b|
    ensures CompareValues(a, b).Less? <==> exists k: nat :: ValuesBeforeAt(a, b, k)
    ensures CompareValues(a, b).Equal? <==> SameValues(a, b)
    ensures SameValues(a, b) ==> !exists k: nat :: ValuesBeforeAt(a, b, k)
  {
    if a != [] {
      StringsAscend(a[0].value, b[0].value);
      StringsTotal(a[0].value, b[0].value);
      StringsAscend(a[0].value, a[0].value);
      StringsTotal(a[0].value, a[0].value);
      ValuesAscend(a[1..], b[1..]);
      if k: nat :| ValuesBeforeAt(a, b, k) {
        if k > 0 {
          assert ValuesBeforeAt(a[1..], b[1..], k - 1);
        }
      }
      if a[0].value != b[0].value {
        if CompareValues(a, b).Less? {
          assert ValuesBeforeAt(a, b, 0);
        }
      } else {
        if k: nat :| ValuesBeforeAt(a[1..], b[1..], k) {
          assert forall j :: 0 < j < k + 1 ==> a[j] == a[1..][j - 1] && b[j] == b[1..][j - 1];
          assert ValuesBeforeAt(a, b, k + 1);
        }
        assert SameValues(a[1..], b[1..]) ==> SameValues(a, b) by {
          assert forall j :: 0 < j < |a| ==> a[j] == a[1..][j - 1] && b[j] == b[1..][j - 1];
        }
      }
    }
  }

  // ---- Stable sorting -------------------------------------------------------------------------------------

  ghost predicate Sorted(ms: seq<Metric>) {
    forall i, j :: 0 <= i < j < |ms| ==> AtMost(ms[i], ms[j])
  }

  /** Puts a metric behind everything that is not greater. */
  function InsertMetric(ms: seq<Metric>, m: Metric): (r: seq<Metric>)
    ensures multiset(r) == multiset(ms) + multiset{m}
  {
    if ms == [] || AtMost(ms[|ms| - 1], m) then ms + [m]
    else
      assert ms == ms[..|ms| - 1] + [ms[|ms| - 1]];
      InsertMetric(ms[..|ms| - 1], m) + [ms[|ms| - 1]]
  }

  function SortMetrics(ms: seq<Metric>): (r: seq<Metric>)
    ensures multiset(r) == multiset(ms)
  {
    if ms == [] then []
    else
      assert ms == ms[..|ms| - 1] + [ms[|ms| - 1]];
      InsertMetric(SortMetrics(ms[..|ms| - 1]), ms[|ms| - 1])
  }

  lemma {:induction false} InsertSorted(ms: seq<Metric>, m: Metric)
    requires Sorted(ms)
    ensures Sorted(InsertMetric(ms, m))
  {
    if ms == [] {
    } else if AtMost(ms[|ms| - 1], m) {
      forall i | 0 <= i < |ms| ensures AtMost(ms[i], m) {
        if i < |ms| - 1 {
          MetricsTransitive(ms[i], ms[|ms| - 1], m);
        }
      }
    } else {
      var front, last := ms[..|ms| - 1], ms[|ms| - 1];
      InsertSorted(front, m);
      var r := InsertMetric(front, m);
      forall i | 0 <= i < |r| ensures AtMost(r[i], last) {
        assert r[i] in multiset(front) + multiset{m};
        MetricsReverse(last, m);
        if r[i] != m {
          assert r[i] in front;
        }
      }
    }
  }

  lemma {:induction false} SortSorts(ms: seq<Metric>)
    ensures Sorted(SortMetrics(ms))
  {
    if ms != [] {
      SortSorts(ms[..|ms| - 1]);
      InsertSorted(SortMetrics(ms[..|ms| - 1]), ms[|ms| - 1]);
    }
  }

  /** The metrics that tie with `m`, in order. */
  function Ties(ms: seq<Metric>, m: Metric): seq<Metric> {
    if ms == [] then []
    else
      var last := ms[|ms| - 1];
      Ties(ms[..|ms| - 1], m) + (if CompareMetrics(last, m).Equal? then [last] else [])
  }

  lemma {:induction false} InsertStable(ms: seq<Metric>, x: Metric, m: Metric)
    ensures Ties(InsertMetric(ms, x), m) == Ties(ms + [x], m)
  {
    assert (ms + [x])[..|ms|] == ms;
    if ms != [] && !AtMost(ms[|ms| - 1], x) {
      var front, last := ms[..|ms| - 1], ms[|ms| - 1];
      InsertStable(front, x, m);
      assert (front + [x])[..|front|] == front;
      assert (InsertMetric(front, x) + [last])[..|InsertMetric(front, x)|] == InsertMetric(front, x);
      if CompareMetrics(last, m).Equal? && CompareMetrics(x, m).Equal? {
        MetricsReverse(x, m);
        MetricsTransitive(last, m, x);
      }
    }
  }

  /** Sorting keeps metrics that tie in the order they came. */
  lemma {:induction false} SortStable(ms: seq<Metric>, m: Metric)
    ensures Ties(SortMetrics(ms), m) == Ties(ms, m)
  {
    if ms != [] {
      var front, last := ms[..|ms| - 1], ms[|ms| - 1];
      SortStable(front, m);
      var sorted := SortMetrics(front);
      InsertStable(sorted, last, m);
      assert (sorted + [last])[..|sorted|] == sorted;
    }
  }

  ghost predicate TiesAreEqual(ms: multiset<Metric>) {
    forall x, y :: x in ms && y in ms && CompareMetrics(x, y).Equal? ==> x == y
  }

  lemma HeadsAgree(a: seq<Metric>, b: seq<Metric>)
    requires Sorted(a) && Sorted(b) && multiset(a) == multiset(b) && a != [] && b != []
    requires TiesAreEqual(multiset(a))
    ensures a[0] == b[0]
  {
    assert b[0] in multiset(b) && a[0] in multiset(a);
    var i :| 0 <= i < |b| && b[i] == a[0];
    var j :| 0 <= j < |a| && a[j] == b[0];
    MetricsReverse(a[0], a[0]);
    MetricsReverse(b[0], b[0]);
    MetricsReverse(a[0], b[0]);
  }

  /** Where ties are between equal metrics only, a sorted list is determined by what is in it. */
  lemma {:induction false} SortedDetermined(a: seq<Metric>, b: seq<Metric>)
    requires Sorted(a) && Sorted(b) && multiset(a) == multiset(b)
    requires TiesAreEqual(multiset(a))
    ensures a == b
  {
    assert |a| == |multiset(a)| == |multiset(b)| == |b|;
    if a != [] {
      HeadsAgree(a, b);
      assert a == [a[0]] + a[1..] && b == [b[0]] + b[1..];
      assert multiset(a[1..]) == multiset(a) - multiset{a[0]};
      assert multiset(b[1..]) == multiset(b) - multiset{b[0]};
      SortedDetermined(a[1..], b[1..]);
    }
  }

  // ---- Missing timestamps --------------------------------------------------------------------------------------

  /** The label values do not tell the two apart. */
  predicate SameLabelValues(a: Metric, b: Metric) {
    |a.labels| == |b.labels| && CompareValues(a.labels, b.labels).Equal?
  }

  /** A missing timestamp is zero, and its metric sorts behind another exactly if that one's is not positive. */
  lemma MissingBehindIff(a: Metric, missing: Metric)
    requires SameLabelValues(a, missing) && missing.timestampMs == 0
    ensures AtMost(a, missing) <==> a.timestampMs <= 0
  {
  }

  /** Metrics without a timestamp come last among those that their label values do not tell apart. */
  ghost predicate MissingLast(ms: seq<Metric>) {
    forall i, j :: 0 <= i < j < |ms| && SameLabelValues(ms[i], ms[j]) && ms[i].timestampMs == 0 ==> ms[j].timestampMs == 0
  }

  /** No metric with a positive timestamp has the label values of one that has none. */
  ghost predicate NoneLater(ms: seq<Metric>) {
    forall a, b :: a in ms && b in ms && SameLabelValues(a, b) && a.timestampMs == 0 ==> b.timestampMs <= 0
  }

  lemma MissingLastMeans(out: seq<Metric>, a: Metric, b: Metric)
    requires Sorted(out) && MissingLast(out) && a in out && b in out && SameLabelValues(a, b) && a.timestampMs == 0
    ensures b.timestampMs <= 0
  {
    var i :| 0 <= i < |out| && out[i] == a;
    var j :| 0 <= j < |out| && out[j] == b;
    if j < i {
      ValuesReverse(a.labels, b.labels);
      MissingBehindIff(b, a);
    }
  }

  lemma NoneLaterMeans(out: seq<Metric>)
    requires Sorted(out) && NoneLater(out)
    ensures MissingLast(out)
  {
    forall i, j | 0 <= i < j < |out| && SameLabelValues(out[i], out[j]) && out[i].timestampMs == 0
      ensures out[j].timestampMs == 0
    {
      assert out[i] in out && out[j] in out && AtMost(out[i], out[j]);
    }
  }

  /** Sorting puts metrics without a timestamp last exactly if none of those they tie with has a positive one. */
  lemma MissingLastIff(ms: seq<Metric>)
    ensures MissingLast(SortMetrics(ms)) <==> NoneLater(ms)
  {
    var out := SortMetrics(ms);
    SortSorts(ms);
    assert forall m :: m in ms <==> m in multiset(ms);
    assert forall m :: m in out <==> m in multiset(out);
    if MissingLast(out) {
      forall a, b | a in ms && b in ms && SameLabelValues(a, b) && a.timestampMs == 0 ensures b.timestampMs <= 0 {
        MissingLastMeans(out, a, b);
      }
    }
    if NoneLater(ms) {
      NoneLaterMeans(out);
    }
  }

  /** One millisecond after the epoch is enough: the metric without a timestamp comes first. */
  lemma MissingFirst(missing: Metric, late: Metric)
    requires late == missing.(timestampMs := 1) && missing.timestampMs == 0
    ensures SortMetrics([late, missing]) == [missing, late]
    ensures !MissingLast(SortMetrics([late, missing]))
  {
    ValuesSame(missing.labels);
    MissingBehindIff(late, missing);
    assert [late, missing][..1] == [late] && [late][..0] == [];
    assert InsertMetric([], late) == [late];
    assert [missing, late][0] == missing && [missing, late][1] == late;
  }

  // ---- Merging by name ------------------------------------------------------------------------------------

  /** Families without metrics are pruned; the metrics of a later family join the first of its name. */
  function AddFamily(byName: map<string, MetricFamily>, mf: MetricFamily): map<string, MetricFamily> {
    if mf.metric == [] then byName
    else if mf.name in byName then
      byName[mf.name := byName[mf.name].(metric := byName[mf.name].metric + mf.metric)]
    else byName[mf.name := mf]
  }

  function Merge(mfs: seq<MetricFamily>): map<string, MetricFamily> {
    if mfs == [] then map[] else AddFamily(Merge(mfs[..|mfs| - 1]), mfs[|mfs| - 1])
  }

  /** The names of the families that have metrics, in order. */
  function Names(mfs: seq<MetricFamily>): (names: seq<string>)
    ensures StrictlySorted(names)
    ensures forall n :: n in names <==> n in Merge(mfs)
  {
    if mfs == [] then []
    else
      var front, last := Names(mfs[..|mfs| - 1]), mfs[|mfs| - 1];
      if last.metric == [] then front else Insert(front, last.name)
  }

  /** Every metric of the families of one name, however many times it occurs. */
  function MetricsNamed(mfs: seq<MetricFamily>, name: string): multiset<Metric> {
    if mfs == [] then multiset{}
    else
      var last := mfs[|mfs| - 1];
      MetricsNamed(mfs[..|mfs| - 1], name) + (if last.name == name then multiset(last.metric) else multiset{})
  }

  /** What `gather` makes of the collected families, before prefix and labels. */
  function Collated(mfs: seq<MetricFamily>): (out: seq<MetricFamily>)
    ensures |out| == |Names(mfs)|
  {
    var names, byName := Names(mfs), Merge(mfs);
    seq(|names|, i requires 0 <= i < |names| =>
      assert names[i] in names;
      byName[names[i]].(metric := SortMetrics(byName[names[i]].metric)))
  }

  function Prefixed(prefix: Option<string>, name: string): string {
    if prefix.Some? then prefix.value + "_" + name else name
  }

  function Decorate(prefix: Option<string>, pairs: seq<LabelPair>, mf: MetricFamily): MetricFamily {
    mf.(name := Prefixed(prefix, mf.name),
        metric := seq(|mf.metric|, i requires 0 <= i < |mf.metric| => Labelled(pairs, mf.metric[i])))
  }

  function Labelled(pairs: seq<LabelPair>, m: Metric): Metric {
    m.(labels := m.labels + pairs)
  }

  function Gathered(mfs: seq<MetricFamily>, prefix: Option<string>, pairs: seq<LabelPair>): (out: seq<MetricFamily>)
    ensures |out| == |Collated(mfs)|
  {
    var families := Collated(mfs);
    seq(|families|, i requires 0 <= i < |families| => Decorate(prefix, pairs, families[i]))
  }

  // ---- What gather guarantees -----------------------------------------------------------------------------

  lemma {:induction false} MergeConserves(mfs: seq<MetricFamily>, name: string)
    ensures name in Merge(mfs) ==>
              Merge(mfs)[name].name == name && Merge(mfs)[name].metric != []
              && multiset(Merge(mfs)[name].metric) == MetricsNamed(mfs, name)
    ensures name !in Merge(mfs) ==> MetricsNamed(mfs, name) == multiset{}
  {
    if mfs != [] {
      MergeConserves(mfs[..|mfs| - 1], name);
    }
  }

  /**
   The collated families have metrics, carry strictly increasing names, hold exactly the metrics collected
   under their name, and hold them sorted, with ties in the order they were collected.
   */
  lemma CollatedCanonical(mfs: seq<MetricFamily>)
    ensures var out := Collated(mfs);
      && (forall i :: 0 <= i < |out| ==> out[i].metric != [] && Sorted(out[i].metric))
      && (forall i :: 0 <= i < |out| ==> multiset(out[i].metric) == MetricsNamed(mfs, out[i].name))
      && (forall i, m :: 0 <= i < |out| ==> Ties(out[i].metric, m) == Ties(Under(mfs, out[i].name), m))
      && (forall i, j :: 0 <= i < j < |out| ==> CompareStrings(out[i].name, out[j].name).Less?)
      && (forall name :: MetricsNamed(mfs, name) != multiset{} ==> exists i :: 0 <= i < |out| && out[i].name == name)
  {
    var out, names := Collated(mfs), Names(mfs);
    forall i | 0 <= i < |out|
      ensures out[i].name == names[i] && out[i].metric != [] && Sorted(out[i].metric)
      ensures multiset(out[i].metric) == MetricsNamed(mfs, out[i].name)
      ensures forall m :: Ties(out[i].metric, m) == Ties(Under(mfs, out[i].name), m)
    {
      assert names[i] in names;
      MergeConserves(mfs, names[i]);
      var first := MergeTells(mfs, names[i]);
      SortSorts(Merge(mfs)[names[i]].metric);
      assert multiset(out[i].metric) == multiset(Merge(mfs)[names[i]].metric) != multiset{};
      forall m ensures Ties(out[i].metric, m) == Ties(Under(mfs, out[i].name), m) {
        SortStable(Merge(mfs)[names[i]].metric, m);
      }
    }
    forall name | MetricsNamed(mfs, name) != multiset{} ensures exists i :: 0 <= i < |out| && out[i].name == name {
      MergeConserves(mfs, name);
      assert name in names;
      var i :| 0 <= i < |names| && names[i] == name;
      assert out[i].name == name;
    }
  }

  lemma PrefixKeepsOrder(prefix: Option<string>, a: string, b: string)
    ensures CompareStrings(Prefixed(prefix, a), Prefixed(prefix, b)) == CompareStrings(a, b)
  {
    if prefix.Some? {
      StringsPrefix(prefix.value + "_", a, b);
    }
  }

  lemma {:induction false} ValuesAppend(a: seq<LabelPair>, b: seq<LabelPair>, pairs: seq<LabelPair>)
    requires |a| == |b|
    ensures CompareValues(a + pairs, b + pairs) == CompareValues(a, b)
  {
    if a == [] {
      assert a + pairs == b + pairs == pairs;
      ValuesSame(pairs);
    } else {
      assert (a + pairs)[1..] == a[1..] + pairs && (b + pairs)[1..] == b[1..] + pairs;
      ValuesAppend(a[1..], b[1..], pairs);
    }
  }

  lemma {:induction false} ValuesSame(a: seq<LabelPair>)
    ensures CompareValues(a, a).Equal?
  {
    if a != [] {
      ValuesSame(a[1..]);
    }
  }

  lemma LabelsKeepOrder(pairs: seq<LabelPair>, a: Metric, b: Metric)
    ensures CompareMetrics(Labelled(pairs, a), Labelled(pairs, b)) == CompareMetrics(a, b)
  {
    if |a.labels| == |b.labels| {
      ValuesAppend(a.labels, b.labels, pairs);
    }
  }

  /** Prefix and common labels keep both orders: the output is sorted by its final names and labels. */
  lemma GatheredCanonical(mfs: seq<MetricFamily>, prefix: Option<string>, pairs: seq<LabelPair>)
    ensures var out := Gathered(mfs, prefix, pairs);
      && (forall i :: 0 <= i < |out| ==> out[i].metric != [] && Sorted(out[i].metric))
      && (forall i, j :: 0 <= i < j < |out| ==> CompareStrings(out[i].name, out[j].name).Less?)
  {
    var inner, out := Collated(mfs), Gathered(mfs, prefix, pairs);
    CollatedCanonical(mfs);
    forall i, j, k | 0 <= i < |out| && 0 <= j < k < |out[i].metric|
      ensures AtMost(out[i].metric[j], out[i].metric[k])
    {
      LabelsKeepOrder(pairs, inner[i].metric[j], inner[i].metric[k]);
      assert AtMost(inner[i].metric[j], inner[i].metric[k]);
    }
    forall i, j | 0 <= i < j < |out| ensures CompareStrings(out[i].name, out[j].name).Less? {
      PrefixKeepsOrder(prefix, inner[i].name, inner[j].name);
    }
  }

  // ---- The order of collection does not matter ------------------------------------------------------------

  /** Families of one name agree on type and help, and their metrics tie only when they are equal. */
  ghost predicate Agreeing(mfs: seq<MetricFamily>) {
    && (forall i, j :: 0 <= i < |mfs| && 0 <= j < |mfs| && mfs[i].name == mfs[j].name ==>
         mfs[i].fieldType == mfs[j].fieldType && mfs[i].help == mfs[j].help)
    && (forall name :: TiesAreEqual(MetricsNamed(mfs, name)))
  }

  lemma {:induction false} NamedConcat(a: seq<MetricFamily>, b: seq<MetricFamily>, name: string)
    ensures MetricsNamed(a + b, name) == MetricsNamed(a, name) + MetricsNamed(b, name)
    decreases |b|
  {
    if b == [] {
      assert a + b == a;
    } else {
      assert (a + b)[..|a + b| - 1] == a + b[..|b| - 1];
      NamedConcat(a, b[..|b| - 1], name);
    }
  }

  lemma {:induction false} NamedPermutes(a: seq<MetricFamily>, b: seq<MetricFamily>, name: string)
    requires multiset(a) == multiset(b)
    ensures MetricsNamed(a, name) == MetricsNamed(b, name)
    decreases |a|
  {
    assert |a| == |multiset(a)| == |multiset(b)| == |b|;
    if a != [] {
      var front, last := a[..|a| - 1], a[|a| - 1];
      assert a == front + [last];
      assert last in multiset(b);
      var i :| 0 <= i < |b| && b[i] == last;
      assert b == b[..i] + [last] + b[i + 1..];
      assert multiset(front) == multiset(a) - multiset{last};
      assert multiset(b[..i] + b[i + 1..]) == multiset(b) - multiset{last};
      NamedPermutes(front, b[..i] + b[i + 1..], name);
      NamedConcat(b[..i] + [last], b[i + 1..], name);
      NamedConcat(b[..i], [last], name);
      NamedConcat(b[..i], b[i + 1..], name);
      NamedConcat(front, [last], name);
    }
  }

  /** A merged family carries type and help of one of the families of its name. */
  lemma {:induction false} MergeSource(mfs: seq<MetricFamily>, name: string) returns (i: nat)
    requires name in Merge(mfs)
    ensures i < |mfs| && mfs[i].name == name
    ensures Merge(mfs)[name].fieldType == mfs[i].fieldType && Merge(mfs)[name].help == mfs[i].help
  {
    var front := mfs[..|mfs| - 1];
    if name in Merge(front) {
      i := MergeSource(front, name);
    } else {
      i := |mfs| - 1;
    }
  }

  lemma {:induction false} MergeHasNames(mfs: seq<MetricFamily>, name: string)
    ensures name in Merge(mfs) <==> MetricsNamed(mfs, name) != multiset{}
  {
    MergeConserves(mfs, name);
    if name in Merge(mfs) {
      assert Merge(mfs)[name].metric[0] in multiset(Merge(mfs)[name].metric);
    }
  }

  /** However the registry walks its collectors, the result of gathering is the same. */
  lemma GatherOrderIrrelevant(a: seq<MetricFamily>, b: seq<MetricFamily>, prefix: Option<string>, pairs: seq<LabelPair>)
    requires multiset(a) == multiset(b) && Agreeing(a)
    ensures Gathered(a, prefix, pairs) == Gathered(b, prefix, pairs)
  {
    forall name ensures name in Names(a) <==> name in Names(b) {
      NamedPermutes(a, b, name);
      MergeHasNames(a, name);
      MergeHasNames(b, name);
    }
    SortedUnique(Names(a), Names(b));
    forall i | 0 <= i < |Names(a)| ensures Collated(a)[i] == Collated(b)[i] {
      assert Names(a)[i] in Names(a);
      SameFamily(a, b, Names(a)[i]);
    }
    assert Collated(a) == Collated(b);
  }

  lemma SameFamily(a: seq<MetricFamily>, b: seq<MetricFamily>, name: string)
    requires multiset(a) == multiset(b) && Agreeing(a)
    requires name in Merge(a) && name in Merge(b)
    ensures Merge(a)[name].(metric := []) == Merge(b)[name].(metric := [])
    ensures SortMetrics(Merge(a)[name].metric) == SortMetrics(Merge(b)[name].metric)
  {
    MergeConserves(a, name);
    MergeConserves(b, name);
    NamedPermutes(a, b, name);
    var i := MergeSource(a, name);
    var j := MergeSource(b, name);
    assert b[j] in multiset(a);
    var k :| 0 <= k < |a| && a[k] == b[j];
    var x, y := Merge(a)[name].metric, Merge(b)[name].metric;
    SortSorts(x);
    SortSorts(y);
    SortedDetermined(SortMetrics(x), SortMetrics(y));
  }

  // ---- The output, against the collected families ---------------------------------------------------------------

  /** The metrics collected under a name, in the order in which they were collected. */
  function Under(mfs: seq<MetricFamily>, name: string): seq<Metric> {
    if mfs == [] then []
    else Under(mfs[..|mfs| - 1], name) + if mfs[|mfs| - 1].name == name then mfs[|mfs| - 1].metric else []
  }

  /** The family at `i` is the first of its name that has metrics. */
  ghost predicate IsFirst(mfs: seq<MetricFamily>, i: nat) {
    && i < |mfs| && mfs[i].metric != []
    && forall j :: 0 <= j < i ==> mfs[j].name != mfs[i].name || mfs[j].metric == []
  }

  lemma {:induction false} MergeTells(mfs: seq<MetricFamily>, name: string) returns (i: nat)
    ensures name in Merge(mfs) <==> Under(mfs, name) != []
    ensures name in Merge(mfs) ==>
              && Merge(mfs)[name].metric == Under(mfs, name)
              && IsFirst(mfs, i) && mfs[i].name == name && Merge(mfs)[name] == mfs[i].(metric := Under(mfs, name))
  {
    i := 0;
    if mfs != [] {
      var front, last := mfs[..|mfs| - 1], mfs[|mfs| - 1];
      i := MergeTells(front, name);
      if name !in Merge(front) {
        NoneUnder(front, name);
        i := |front|;
      }
    }
  }

  lemma {:induction false} NoneUnder(mfs: seq<MetricFamily>, name: string)
    requires Under(mfs, name) == []
    ensures forall j :: 0 <= j < |mfs| ==> mfs[j].name != name || mfs[j].metric == []
  {
    if mfs != [] {
      NoneUnder(mfs[..|mfs| - 1], name);
    }
  }

  /** A metric without its last `k` labels. */
  function Without(k: nat, m: Metric): Metric
    requires k <= |m.labels|
  {
    m.(labels := m.labels[..|m.labels| - k])
  }

  ghost predicate EndsWith(m: Metric, pairs: seq<LabelPair>) {
    |m.labels| >= |pairs| && m.labels[|m.labels| - |pairs|..] == pairs
  }

  /**
   The family that was made of what was collected under `name`: its final name is the prefix, an underscore and
   `name`; every metric ends in the common labels; without them, they are the collected metrics, ties in the
   order of collection; type and help are those of the first family of that name that has metrics.
   */
  ghost predicate MadeOf(mf: MetricFamily, mfs: seq<MetricFamily>, name: string, prefix: Option<string>,
                         pairs: seq<LabelPair>) {
    && mf.name == (if prefix.Some? then prefix.value + "_" + name else name)
    && (forall k :: 0 <= k < |mf.metric| ==> EndsWith(mf.metric[k], pairs))
    && (exists i: nat ::
          IsFirst(mfs, i) && mfs[i].name == name && mf.help == mfs[i].help && mf.fieldType == mfs[i].fieldType)
    && var plain := seq(|mf.metric|, k requires 0 <= k < |mf.metric| && EndsWith(mf.metric[k], pairs) =>
                          Without(|pairs|, mf.metric[k]));
    multiset(plain) == multiset(Under(mfs, name)) && forall m :: Ties(plain, m) == Ties(Under(mfs, name), m)
  }

  lemma LabelledEnds(pairs: seq<LabelPair>, m: Metric)
    ensures EndsWith(Labelled(pairs, m), pairs) && Without(|pairs|, Labelled(pairs, m)) == m
  {
    assert (m.labels + pairs)[..|m.labels|] == m.labels;
  }

  /** Every family of the output is made of what was collected under one name, and every such name has one. */
  lemma GatheredTells(mfs: seq<MetricFamily>, prefix: Option<string>, pairs: seq<LabelPair>) returns (names: seq<string>)
    ensures var out := Gathered(mfs, prefix, pairs);
            && |names| == |out|
            && (forall i :: 0 <= i < |out| ==> MadeOf(out[i], mfs, names[i], prefix, pairs))
            && (forall i, j :: 0 <= i < j < |names| ==> names[i] != names[j])
            && (forall name :: name in names <==> Under(mfs, name) != [])
  {
    names := Names(mfs);
    var out := Gathered(mfs, prefix, pairs);
    forall i | 0 <= i < |out| ensures MadeOf(out[i], mfs, names[i], prefix, pairs) {
      DecoratedIsMade(mfs, i, prefix, pairs);
    }
    forall i, j | 0 <= i < j < |names| ensures names[i] != names[j] {
      StringsTotal(names[i], names[j]);
    }
    forall name ensures name in names <==> Under(mfs, name) != [] {
      var i := MergeTells(mfs, name);
    }
  }

  lemma DecoratedIsMade(mfs: seq<MetricFamily>, i: nat, prefix: Option<string>, pairs: seq<LabelPair>)
    requires i < |Names(mfs)|
    ensures MadeOf(Gathered(mfs, prefix, pairs)[i], mfs, Names(mfs)[i], prefix, pairs)
  {
    var name, inner, mf := Names(mfs)[i], Collated(mfs)[i], Gathered(mfs, prefix, pairs)[i];
    assert name in Names(mfs);
    var first := MergeTells(mfs, name);
    assert inner == Merge(mfs)[name].(metric := SortMetrics(Under(mfs, name)));
    forall k | 0 <= k < |mf.metric|
      ensures EndsWith(mf.metric[k], pairs) && Without(|pairs|, mf.metric[k]) == inner.metric[k]
    {
      LabelledEnds(pairs, inner.metric[k]);
    }
    var plain := seq(|mf.metric|, k requires 0 <= k < |mf.metric| && EndsWith(mf.metric[k], pairs) =>
                       Without(|pairs|, mf.metric[k]));
    assert plain == inner.metric;
    forall m ensures Ties(plain, m) == Ties(Under(mfs, name), m) {
      SortStable(Under(mfs, name), m);
    }
  }
}
