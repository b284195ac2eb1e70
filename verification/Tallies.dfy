/**
 Tallies: the content of one histogram shard as a value.  They add up point by point, and a sequence of
 tallies has one sum, whatever part of it is taken first.
 */
module Tallies {
  datatype Tally = Tally(count: nat, sum: real, buckets: seq<nat>)

  function Zero(n: nat): Tally {
    Tally(0, 0.0, seq(n, i => 0))
  }

  function Plus(a: Tally, b: Tally): (t: Tally)
    requires |a.buckets| == |b.buckets|
    ensures |t.buckets| == |a.buckets|
  {
    Tally(a.count + b.count, a.sum + b.sum,
          seq(|a.buckets|, i requires 0 <= i < |a.buckets| => a.buckets[i] + b.buckets[i]))
  }

  lemma PlusZero(a: Tally)
    ensures Plus(a, Zero(|a.buckets|)) == a
    ensures Plus(Zero(|a.buckets|), a) == a
  {
    assert Plus(a, Zero(|a.buckets|)).buckets == a.buckets;
    assert Plus(Zero(|a.buckets|), a).buckets == a.buckets;
  }

  lemma PlusCommutes(a: Tally, b: Tally)
    requires |a.buckets| == |b.buckets|
    ensures Plus(a, b) == Plus(b, a)
  {
    assert Plus(a, b).buckets == Plus(b, a).buckets;
  }

  lemma PlusAssociates(a: Tally, b: Tally, c: Tally)
    requires |a.buckets| == |b.buckets| == |c.buckets|
    ensures Plus(Plus(a, b), c) == Plus(a, Plus(b, c))
  {
    assert Plus(Plus(a, b), c).buckets == Plus(a, Plus(b, c)).buckets;
  }

  /** A change of one summand is a change of the sum. */
  lemma PlusShift(a: Tally, b: Tally, d: Tally)
    requires |a.buckets| == |b.buckets| == |d.buckets|
    ensures Plus(Plus(a, d), b) == Plus(Plus(a, b), d)
  {
    assert Plus(Plus(a, d), b).buckets == Plus(Plus(a, b), d).buckets;
  }

  /** Every counter of a tally is at most `m`. */
  ghost predicate Bounded(t: Tally, m: nat) {
    t.count <= m && forall i :: 0 <= i < |t.buckets| ==> t.buckets[i] <= m
  }

  predicate Shaped(n: nat, ts: seq<Tally>) {
    forall i :: 0 <= i < |ts| ==> |ts[i].buckets| == n
  }

  function Total(n: nat, ts: seq<Tally>): (t: Tally)
    requires Shaped(n, ts)
    ensures |t.buckets| == n
  {
    if ts == [] then Zero(n) else Plus(Total(n, ts[..|ts| - 1]), ts[|ts| - 1])
  }

  lemma {:induction false} TotalConcat(n: nat, a: seq<Tally>, b: seq<Tally>)
    requires Shaped(n, a) && Shaped(n, b)
    ensures Shaped(n, a + b)
    ensures Total(n, a + b) == Plus(Total(n, a), Total(n, b))
    decreases |b|
  {
    if b == [] {
      assert a + b == a;
      PlusZero(Total(n, a));
    } else {
      var front, last := b[..|b| - 1], b[|b| - 1];
      assert (a + b)[..|a + b| - 1] == a + front;
      TotalConcat(n, a, front);
      PlusAssociates(Total(n, a), Total(n, front), last);
    }
  }

  lemma {:induction false} TotalUpdate(n: nat, ts: seq<Tally>, i: nat, d: Tally)
    requires Shaped(n, ts) && i < |ts| && |d.buckets| == n
    ensures Shaped(n, ts[i := Plus(ts[i], d)])
    ensures Total(n, ts[i := Plus(ts[i], d)]) == Plus(Total(n, ts), d)
  {
    var front, last := ts[..|ts| - 1], ts[|ts| - 1];
    var ts' := ts[i := Plus(ts[i], d)];
    if i == |ts| - 1 {
      assert ts'[..|ts| - 1] == front;
      PlusAssociates(Total(n, front), last, d);
    } else {
      assert ts'[..|ts| - 1] == front[i := Plus(front[i], d)];
      TotalUpdate(n, front, i, d);
      PlusShift(Total(n, front), last, d);
    }
  }

  /** The sum of tallies that are bounded by another sequence's counts is bounded by that total. */
  lemma {:induction false} TotalBounded(n: nat, ts: seq<Tally>, us: seq<Tally>)
    requires Shaped(n, ts) && Shaped(n, us) && |ts| == |us|
    requires forall i :: 0 <= i < |ts| ==> Bounded(ts[i], us[i].count)
    ensures Bounded(Total(n, ts), Total(n, us).count)
  {
    if ts != [] {
      TotalBounded(n, ts[..|ts| - 1], us[..|us| - 1]);
    }
  }
}
