/**
 The plain, sequential histogram: what a snapshot of a list of observations has to be, and how the
 increments of single buckets add up to it.
 */
module PlainHistogram {
  import opened Floats
  import opened Tallies
  import opened Wrappers

  /** The index of the first bound that is at least `v`, or the number of bounds. */
  function FindBucket(bounds: seq<F64>, v: real): (i: nat)
    ensures i <= |bounds|
    ensures i < |bounds| ==> AtMost(v, bounds[i])
    ensures forall j :: 0 <= j < i ==> !AtMost(v, bounds[j])
  {
    if bounds == [] || AtMost(v, bounds[0]) then 0
    else
      var rest := FindBucket(bounds[1..], v);
      assert forall j :: 0 < j < rest + 1 ==> bounds[j] == bounds[1..][j - 1];
      rest + 1
  }

  lemma FindBucketUnique(bounds: seq<F64>, v: real, i: nat)
    requires i <= |bounds|
    requires i < |bounds| ==> AtMost(v, bounds[i])
    requires forall j :: 0 <= j < i ==> !AtMost(v, bounds[j])
    ensures FindBucket(bounds, v) == i
  {
  }

  /** The search loop of `observe`. */
  method SearchBucket(bounds: seq<F64>, v: real) returns (i: nat)
    ensures i == FindBucket(bounds, v) <= |bounds|
    ensures i < |bounds| ==> match bounds[i] case NegInf => false case Finite(x) => v <= x case PosInf => true
    ensures forall j :: 0 <= j < i ==> match bounds[j] case NegInf => true case Finite(x) => x < v case PosInf => false
  {
    i := 0;
    while i < |bounds| && !AtMost(v, bounds[i])
      invariant i <= |bounds|
      invariant forall j :: 0 <= j < i ==> !AtMost(v, bounds[j])
    {
      i := i + 1;
    }
    FindBucketUnique(bounds, v, i);
  }

  function Sum(vs: seq<real>): real {
    if vs == [] then 0.0 else Sum(vs[..|vs| - 1]) + vs[|vs| - 1]
  }

  /** How many of the values land in bucket `i`: one value lands in one bucket only. */
  function CountIn(bounds: seq<F64>, vs: seq<real>, i: nat): nat {
    if vs == [] then 0
    else CountIn(bounds, vs[..|vs| - 1], i) + (if FindBucket(bounds, vs[|vs| - 1]) == i then 1 else 0)
  }

  /** How many of the values are at most `b`: what bucket `b` of an exposed histogram has to say. */
  function CountAtMost(vs: seq<real>, b: F64): nat {
    if vs == [] then 0
    else CountAtMost(vs[..|vs| - 1], b) + (if AtMost(vs[|vs| - 1], b) then 1 else 0)
  }

  datatype Row = Row(cumulative: nat, upperBound: F64)

  datatype Snapshot = Snapshot(count: nat, sum: real, rows: seq<Row>)

  /** The snapshot of a list of observations, with no reference to shards, buckets or threads. */
  function Plain(bounds: seq<F64>, vs: seq<real>): Snapshot {
    Snapshot(|vs|, Sum(vs),
             seq(|bounds|, i requires 0 <= i < |bounds| => Row(CountAtMost(vs, bounds[i]), bounds[i])))
  }

  /** What a list of observations leaves in a shard. */
  function Contribution(bounds: seq<F64>, vs: seq<real>): (t: Tally)
    ensures |t.buckets| == |bounds|
  {
    Tally(|vs|, Sum(vs), seq(|bounds|, i requires 0 <= i < |bounds| => CountIn(bounds, vs, i)))
  }

  lemma {:induction false} SumConcat(a: seq<real>, b: seq<real>)
    ensures Sum(a + b) == Sum(a) + Sum(b)
    decreases |b|
  {
    if b == [] {
      assert a + b == a;
    } else {
      assert (a + b)[..|a + b| - 1] == a + b[..|b| - 1];
      SumConcat(a, b[..|b| - 1]);
    }
  }

  lemma {:induction false} CountInConcat(bounds: seq<F64>, a: seq<real>, b: seq<real>, i: nat)
    ensures CountIn(bounds, a + b, i) == CountIn(bounds, a, i) + CountIn(bounds, b, i)
    decreases |b|
  {
    if b == [] {
      assert a + b == a;
    } else {
      assert (a + b)[..|a + b| - 1] == a + b[..|b| - 1];
      CountInConcat(bounds, a, b[..|b| - 1], i);
    }
  }

  lemma {:induction false} CountInBounded(bounds: seq<F64>, vs: seq<real>, i: nat)
    ensures CountIn(bounds, vs, i) <= |vs|
  {
    if vs != [] {
      CountInBounded(bounds, vs[..|vs| - 1], i);
    }
  }

  /** Observing one list after another adds the contributions. */
  lemma ContributionConcat(bounds: seq<F64>, a: seq<real>, b: seq<real>)
    ensures Contribution(bounds, a + b) == Plus(Contribution(bounds, a), Contribution(bounds, b))
  {
    SumConcat(a, b);
    forall i | 0 <= i < |bounds|
      ensures CountIn(bounds, a + b, i) == CountIn(bounds, a, i) + CountIn(bounds, b, i)
    {
      CountInConcat(bounds, a, b, i);
    }
    assert Contribution(bounds, a + b).buckets
        == Plus(Contribution(bounds, a), Contribution(bounds, b)).buckets;
  }

  function PrefixSum(ns: seq<nat>, k: nat): nat
    requires k <= |ns|
  {
    if k == 0 then 0 else PrefixSum(ns, k - 1) + ns[k - 1]
  }

  lemma {:induction false} PrefixSumOne(bounds: seq<F64>, vs: seq<real>, k: nat)
    requires vs != [] && k <= |bounds|
    ensures PrefixSum(Contribution(bounds, vs).buckets, k)
         == PrefixSum(Contribution(bounds, vs[..|vs| - 1]).buckets, k)
          + (if FindBucket(bounds, vs[|vs| - 1]) < k then 1 else 0)
  {
    if k > 0 {
      PrefixSumOne(bounds, vs, k - 1);
    }
  }

  lemma LessTransitive(v: real, a: F64, b: F64)
    requires Less(a, b) && AtMost(v, a)
    ensures AtMost(v, b)
  {
  }

  /**
   Although each observation increments one bucket, adding buckets up to and including `i` counts exactly
   the values that are at most bound `i`: this needs the bounds to increase.
   */
  lemma {:induction false} PrefixSumCounts(bounds: seq<F64>, vs: seq<real>, i: nat)
    requires Increasing(bounds) && i < |bounds|
    ensures PrefixSum(Contribution(bounds, vs).buckets, i + 1) == CountAtMost(vs, bounds[i])
  {
    if vs == [] {
      PrefixSumEmpty(bounds, i + 1);
    } else {
      var v := vs[|vs| - 1];
      PrefixSumOne(bounds, vs, i + 1);
      PrefixSumCounts(bounds, vs[..|vs| - 1], i);
      var f := FindBucket(bounds, v);
      if f < i {
        LessTransitive(v, bounds[f], bounds[i]);
      }
    }
  }

  lemma {:induction false} PrefixSumEmpty(bounds: seq<F64>, k: nat)
    requires k <= |bounds|
    ensures PrefixSum(Contribution(bounds, []).buckets, k) == 0
  {
    if k > 0 {
      PrefixSumEmpty(bounds, k - 1);
    }
  }

  lemma {:induction false} PrefixSumBounded(bounds: seq<F64>, vs: seq<real>, k: nat)
    requires k <= |bounds|
    ensures PrefixSum(Contribution(bounds, vs).buckets, k) <= |vs|
  {
    if vs == [] {
      PrefixSumEmpty(bounds, k);
    } else {
      PrefixSumOne(bounds, vs, k);
      PrefixSumBounded(bounds, vs[..|vs| - 1], k);
    }
  }

  lemma {:induction false} CountAtMostConcat(a: seq<real>, b: seq<real>, x: F64)
    ensures CountAtMost(a + b, x) == CountAtMost(a, x) + CountAtMost(b, x)
    decreases |b|
  {
    if b == [] {
      assert a + b == a;
    } else {
      assert (a + b)[..|a + b| - 1] == a + b[..|b| - 1];
      CountAtMostConcat(a, b[..|b| - 1], x);
    }
  }

  lemma {:induction false} CountAtMostMonotone(vs: seq<real>, a: F64, b: F64)
    requires Less(a, b)
    ensures CountAtMost(vs, a) <= CountAtMost(vs, b) <= |vs|
  {
    if vs != [] {
      CountAtMostMonotone(vs[..|vs| - 1], a, b);
      if AtMost(vs[|vs| - 1], a) {
        LessTransitive(vs[|vs| - 1], a, b);
      }
    }
  }

  lemma {:induction false} CountAtMostBounded(vs: seq<real>, x: F64)
    ensures CountAtMost(vs, x) <= |vs|
  {
    if vs != [] {
      CountAtMostBounded(vs[..|vs| - 1], x);
    }
  }

  /** The places of the values that are at most `x`. */
  ghost function PlacesAtMost(vs: seq<real>, x: real): set<int> {
    set k | 0 <= k < |vs| && vs[k] <= x
  }

  lemma {:induction false} CountTells(vs: seq<real>, x: real)
    ensures CountAtMost(vs, Finite(x)) == |PlacesAtMost(vs, x)|
    ensures CountAtMost(vs, NegInf) == 0 && CountAtMost(vs, PosInf) == |vs|
  {
    if vs != [] {
      var front, n := vs[..|vs| - 1], |vs| - 1;
      CountTells(front, x);
      assert PlacesAtMost(vs, x) == PlacesAtMost(front, x) + if vs[n] <= x then {n} else {};
    } else {
      assert PlacesAtMost(vs, x) == {};
    }
  }

  /** Row by row, on numbers: a bound counts the values that are at most as large, equal ones included. */
  lemma PlainTells(bounds: seq<F64>, vs: seq<real>)
    ensures var s := Plain(bounds, vs);
            && s.count == |vs| && |s.rows| == |bounds|
            && (forall i :: 0 <= i < |bounds| ==> s.rows[i].upperBound == bounds[i])
            && (forall i :: 0 <= i < |bounds| ==>
                  match bounds[i]
                  case NegInf => s.rows[i].cumulative == 0
                  case Finite(x) => s.rows[i].cumulative == |set k | 0 <= k < |vs| && vs[k] <= x|
                  case PosInf => s.rows[i].cumulative == |vs|)
  {
    forall i | 0 <= i < |bounds|
      ensures bounds[i].Finite? ==>
                CountAtMost(vs, bounds[i]) == |set k | 0 <= k < |vs| && vs[k] <= bounds[i].value|
      ensures bounds[i].NegInf? ==> CountAtMost(vs, bounds[i]) == 0
      ensures bounds[i].PosInf? ==> CountAtMost(vs, bounds[i]) == |vs|
    {
      var x := if bounds[i].Finite? then bounds[i].value else 0.0;
      CountTells(vs, x);
      assert PlacesAtMost(vs, x) == set k | 0 <= k < |vs| && vs[k] <= x;
    }
  }

  lemma SumTells(v: real, vs: seq<real>)
    ensures Sum([]) == 0.0 && Sum([v]) == v && Sum([v] + vs) == v + Sum(vs)
  {
    assert [v][..0] == [];
    SumConcat([v], vs);
  }

  /** Buckets of a snapshot never decrease along the bounds and never exceed the sample count. */
  lemma PlainShape(bounds: seq<F64>, vs: seq<real>)
    requires Increasing(bounds)
    ensures var s := Plain(bounds, vs);
            && (forall i :: 0 <= i < |s.rows| ==> s.rows[i].cumulative <= s.count)
            && (forall i, j :: 0 <= i < j < |s.rows| ==> s.rows[i].cumulative <= s.rows[j].cumulative)
  {
    forall i | 0 <= i < |bounds| ensures CountAtMost(vs, bounds[i]) <= |vs| {
      CountAtMostBounded(vs, bounds[i]);
    }
    forall i, j | 0 <= i < j < |bounds| ensures CountAtMost(vs, bounds[i]) <= CountAtMost(vs, bounds[j]) {
      CountAtMostMonotone(vs, bounds[i], bounds[j]);
    }
  }

  /** Every counter of one snapshot is at most that counter of another. */
  ghost predicate PointwiseAtMost(a: Snapshot, b: Snapshot) {
    && a.count <= b.count
    && |a.rows| == |b.rows|
    && (forall i :: 0 <= i < |a.rows| ==>
         a.rows[i].upperBound == b.rows[i].upperBound && a.rows[i].cumulative <= b.rows[i].cumulative)
  }

  lemma PlainMonotone(bounds: seq<F64>, vs: seq<real>, more: seq<real>)
    ensures PointwiseAtMost(Plain(bounds, vs), Plain(bounds, vs + more))
  {
    forall i | 0 <= i < |bounds| ensures CountAtMost(vs, bounds[i]) <= CountAtMost(vs + more, bounds[i]) {
      CountAtMostConcat(vs, more, bounds[i]);
    }
  }

  const DEFAULT_BUCKETS: seq<F64> := [
    Finite(0.005), Finite(0.01), Finite(0.025), Finite(0.05), Finite(0.1), Finite(0.25),
    Finite(0.5), Finite(1.0), Finite(2.5), Finite(5.0), Finite(10.0)]

  /** The default bounds in milliseconds. */
  const MILLIS: seq<int> := [5, 10, 25, 50, 100, 250, 500, 1000, 2500, 5000, 10000]

  datatype BucketError = NotIncreasing(lower: F64, upper: F64)

  method Defaults() returns (bounds: seq<F64>)
    ensures |bounds| == 11 && forall k :: 0 <= k < 11 ==> bounds[k] == Finite(MILLIS[k] as real / 1000.0)
    ensures Increasing(bounds)
  {
    bounds := DEFAULT_BUCKETS;
  }

  /** On numbers: what `<` is, with the infinities at the ends. */
  predicate Below(a: F64, b: F64) {
    match (a, b)
    case (Finite(x), Finite(y)) => x < y
    case (NegInf, _) => b != NegInf
    case (_, _) => a != PosInf && b == PosInf
  }

  lemma BelowIff(bounds: seq<F64>)
    ensures Increasing(bounds) <==> forall i, j :: 0 <= i < j < |bounds| ==> Below(bounds[i], bounds[j])
    ensures forall a, b :: Less(a, b) <==> Below(a, b)
  {
    assert forall a, b :: Less(a, b) <==> Below(a, b);
  }

  /**
   Accepts bounds exactly when they increase strictly, puts in the defaults for an empty list, and drops a
   final `+Inf`, so that the bounds in use increase and are below `+Inf`.
   */
  method CheckAndAdjustBuckets(given: seq<F64>) returns (r: Result<seq<F64>, BucketError>)
    ensures r.Ok? <==> Increasing(given)
    ensures r.Ok? <==> forall i, j :: 0 <= i < j < |given| ==> Below(given[i], given[j])
    ensures r.Ok? ==> Increasing(r.value) && PosInf !in r.value
    ensures r.Ok? && given == [] ==>
              |r.value| == 11 && forall k :: 0 <= k < 11 ==> r.value[k] == Finite(MILLIS[k] as real / 1000.0)
    ensures r.Ok? && given != [] ==> given == r.value || given == r.value + [PosInf]
    ensures r.Err? ==> exists i ::
                         && 0 <= i < |given| - 1 && given[i] == r.error.lower && given[i + 1] == r.error.upper
                         && Increasing(given[..i + 1])
    ensures r.Err? ==> !Below(r.error.lower, r.error.upper)
  {
    BelowIff(given);
    var buckets := given;
    if buckets == [] {
      buckets := Defaults();
    }
    var i := 0;
    while i < |buckets|
      invariant i <= |buckets|
      invariant forall j, k :: 0 <= j < k <= i && k < |buckets| ==> Less(buckets[j], buckets[k])
    {
      if i < |buckets| - 1 && !Less(buckets[i], buckets[i + 1]) {
        return Err(NotIncreasing(buckets[i], buckets[i + 1]));
      }
      i := i + 1;
    }
    var last := |buckets| - 1;
    if buckets[last].PosInf? {
      assert buckets == buckets[..last] + [PosInf];
      buckets := buckets[..last];
    }
    r := Ok(buckets);
  }
}
