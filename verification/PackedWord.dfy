/**
 The packed 64-bit word of a histogram: the top bit names the hot shard, the low 63 bits count the
 observations that have started.
 */
module PackedWord {
  import opened Integers

  datatype ShardIndex = First | Second {
    function Inverse(): ShardIndex {
      if First? then Second else First
    }
  }

  /** The shift by 63 and the mask of the low 63 bits, on numbers. */
  function Split(n: u64): (ShardIndex, u64) {
    (if n / TWO63 == 0 then First else Second, n % TWO63)
  }

  function Pack(shard: ShardIndex, count: nat): (n: u64)
    requires count < TWO63
    ensures Split(n) == (shard, count)
  {
    if shard.First? then count else TWO63 + count
  }

  class ShardAndCount {
    var inner: u64

    constructor ()
      ensures Split(inner) == (First, 0)
    {
      inner := 0;
    }

    method Flip() returns (before: (ShardIndex, u64))
      modifies this
      ensures before == Split(old(inner))
      ensures inner == Apply(old(inner), Op.Flip)
    {
      var n := inner;
      inner := WrappingAdd(inner, TWO63);
      before := Split(n);
    }

    method Get() returns (now: (ShardIndex, u64))
      ensures now == Split(inner)
    {
      now := Split(inner);
    }

    method IncBy(delta: u64) returns (before: (ShardIndex, u64))
      modifies this
      ensures before == Split(old(inner))
      ensures inner == Apply(old(inner), Op.IncBy(delta))
    {
      var n := inner;
      inner := WrappingAdd(inner, delta);
      before := Split(n);
    }
  }

  datatype Op = IncBy(delta: u64) | Flip

  function Apply(n: u64, op: Op): u64 {
    match op
    case IncBy(delta) => WrappingAdd(n, delta)
    case Flip => WrappingAdd(n, TWO63)
  }

  function Run(n: u64, ops: seq<Op>): u64 {
    if ops == [] then n else Apply(Run(n, ops[..|ops| - 1]), ops[|ops| - 1])
  }

  /** The pair an operation reports: the word as it was just before the operation. */
  function Reported(ops: seq<Op>, i: nat): (ShardIndex, u64)
    requires i < |ops|
  {
    Split(Run(0, ops[..i]))
  }

  function Flips(ops: seq<Op>): nat {
    if ops == [] then 0 else Flips(ops[..|ops| - 1]) + (if ops[|ops| - 1].Flip? then 1 else 0)
  }

  function Increments(ops: seq<Op>): nat {
    if ops == [] then 0
    else Increments(ops[..|ops| - 1]) + (if ops[|ops| - 1].IncBy? then ops[|ops| - 1].delta else 0)
  }

  function Parity(n: nat): ShardIndex {
    if n % 2 == 0 then First else Second
  }

  /** Adding 2^63 modulo 2^64 changes the top bit only. */
  lemma FlipPacked(shard: ShardIndex, count: nat)
    requires count < TWO63
    ensures Apply(Pack(shard, count), Op.Flip) == Pack(shard.Inverse(), count)
  {
  }

  /** As long as the low part does not overflow, an increment never reaches the top bit. */
  lemma IncPacked(shard: ShardIndex, count: nat, delta: u64)
    requires count + delta < TWO63
    ensures Apply(Pack(shard, count), Op.IncBy(delta)) == Pack(shard, count + delta)
  {
  }

  /** The wrapping word is exactly the pair of the parity of flips and the sum of increments. */
  lemma {:induction false} RunDecodes(ops: seq<Op>)
    requires Increments(ops) < TWO63
    ensures Run(0, ops) == Pack(Parity(Flips(ops)), Increments(ops))
    ensures Split(Run(0, ops)) == (Parity(Flips(ops)), Increments(ops))
  {
    if ops != [] {
      var front, op := ops[..|ops| - 1], ops[|ops| - 1];
      RunDecodes(front);
      match op
      case IncBy(delta) => IncPacked(Parity(Flips(front)), Increments(front), delta);
      case Flip => FlipPacked(Parity(Flips(front)), Increments(front));
    }
  }

  lemma {:induction false} IncrementsMonotone(ops: seq<Op>, i: nat)
    requires i <= |ops|
    ensures Increments(ops[..i]) <= Increments(ops)
  {
    if i < |ops| {
      IncrementsMonotone(ops[..|ops| - 1], i);
      assert ops[..|ops| - 1][..i] == ops[..i];
    } else {
      assert ops[..i] == ops;
    }
  }

  /** Every operation of a run reports the hot shard and the count that held just before it. */
  lemma ReportedDecodes(ops: seq<Op>, i: nat)
    requires i < |ops|
    requires Increments(ops) < TWO63
    ensures Reported(ops, i) == (Parity(Flips(ops[..i])), Increments(ops[..i]))
  {
    IncrementsMonotone(ops, i);
    RunDecodes(ops[..i]);
  }
}
