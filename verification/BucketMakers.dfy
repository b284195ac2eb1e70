/** The two helpers that make bucket bounds. */
module BucketMakers {
  import opened Wrappers
  import opened Floats

  datatype MakerError = NoCount | BadWidth | BadStart | BadFactor

  ghost predicate AllFinite(bounds: seq<F64>) {
    forall i :: 0 <= i < |bounds| ==> bounds[i].Finite?
  }

  /** Bounds a fixed width apart, which increase and are therefore accepted as they are. */
  function LinearBuckets(start: real, width: real, count: nat): (r: Result<seq<F64>, MakerError>)
    ensures r.Ok? <==> count >= 1 && width > 0.0
    ensures r.Ok? ==> |r.value| == count && AllFinite(r.value) && r.value[0] == Finite(start)
    ensures r.Ok? ==> forall i :: 0 < i < count ==> r.value[i].value - r.value[i - 1].value == width
    ensures r.Ok? ==> Increasing(r.value)
  {
    if count < 1 then Err(NoCount)
    else if width <= 0.0 then Err(BadWidth)
    else
      assert forall i, j: int :: 0 <= i < j < count ==> LinearBound(start, width, i) < LinearBound(start, width, j) by {
        forall i, j: int | 0 <= i < j < count ensures LinearBound(start, width, i) < LinearBound(start, width, j) {
          Spaced(start, width, i, j);
        }
      }
      assert forall i: int :: 0 < i < count ==> LinearBound(start, width, i) - LinearBound(start, width, i - 1) == width by {
        forall i: int | 0 < i < count ensures LinearBound(start, width, i) - LinearBound(start, width, i - 1) == width {
          Spaced(start, width, i - 1, i);
        }
      }
      Ok(seq(count, step requires 0 <= step < count => Finite(LinearBound(start, width, step))))
  }

  function LinearBound(start: real, width: real, step: int): real {
    start + width * (step as real)
  }

  lemma Spaced(start: real, width: real, i: int, j: int)
    requires i < j && width > 0.0
    ensures LinearBound(start, width, j) == LinearBound(start, width, i) + width * ((j - i) as real)
    ensures LinearBound(start, width, i) < LinearBound(start, width, j)
  {
    assert width * (j as real) == width * (i as real) + width * ((j - i) as real);
    assert width * ((j - i) as real) > 0.0;
  }

  /** Every bound is the one before it, multiplied by the factor. */
  ghost predicate Geometric(bounds: seq<F64>, factor: real)
    requires AllFinite(bounds)
  {
    var k := |bounds| - 1;
    k >= 1 ==> bounds[k].value == bounds[k - 1].value * factor && Geometric(bounds[..k], factor)
  }

  /** Bounds that grow by a factor. */
  method ExponentialBuckets(start: real, factor: real, count: nat) returns (r: Result<seq<F64>, MakerError>)
    ensures r.Ok? <==> count >= 1 && start > 0.0 && factor > 1.0
    ensures r.Ok? ==> |r.value| == count && AllFinite(r.value) && r.value[0] == Finite(start)
    ensures r.Ok? ==> Geometric(r.value, factor)
    ensures r.Ok? ==> Increasing(r.value)
  {
    if count < 1 {
      return Err(NoCount);
    }
    if start <= 0.0 {
      return Err(BadStart);
    }
    if factor <= 1.0 {
      return Err(BadFactor);
    }
    var next, buckets := start, [];
    for k := 0 to count
      invariant |buckets| == k && Growing(buckets, next, start, factor)
    {
      buckets, next := Push(buckets, next, start, factor);
    }
    r := Ok(buckets);
  }

  /** The bounds so far, and the one that comes next. */
  ghost predicate Growing(bounds: seq<F64>, next: real, start: real, factor: real) {
    && AllFinite(bounds) && Increasing(bounds) && Geometric(bounds, factor) && next > 0.0
    && (forall i :: 0 <= i < |bounds| ==> bounds[i].value < next)
    && (bounds == [] ==> next == start)
    && (bounds != [] ==> bounds[0] == Finite(start) && next == bounds[|bounds| - 1].value * factor)
  }

  method Push(bounds: seq<F64>, next: real, ghost start: real, factor: real) returns (bounds': seq<F64>, next': real)
    requires Growing(bounds, next, start, factor) && factor > 1.0
    ensures |bounds'| == |bounds| + 1 && Growing(bounds', next', start, factor)
  {
    next' := Scale(next, factor);
    bounds' := bounds + [Finite(next)];
    PushIncreases(bounds, next, next');
    PushGeometric(bounds, next, factor);
  }

  lemma PushIncreases(bounds: seq<F64>, next: real, more: real)
    requires AllFinite(bounds) && Increasing(bounds) && next < more
    requires forall i :: 0 <= i < |bounds| ==> bounds[i].value < next
    ensures AllFinite(bounds + [Finite(next)]) && Increasing(bounds + [Finite(next)])
    ensures forall i :: 0 <= i <= |bounds| ==> (bounds + [Finite(next)])[i].value < more
  {
  }

  lemma PushGeometric(bounds: seq<F64>, next: real, factor: real)
    requires AllFinite(bounds) && Geometric(bounds, factor) && AllFinite(bounds + [Finite(next)])
    requires bounds != [] ==> next == bounds[|bounds| - 1].value * factor
    ensures Geometric(bounds + [Finite(next)], factor)
  {
    assert (bounds + [Finite(next)])[..|bounds|] == bounds;
  }

  method Scale(x: real, factor: real) returns (y: real)
    requires x > 0.0 && factor > 1.0
    ensures y == x * factor && x < y
  {
    y := x * factor;
    assert x * (factor - 1.0) > 0.0;
  }
}
