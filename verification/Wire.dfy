/**
 The wire format of the Protocol Buffers Encoding specification, as far as the metric messages use it:
 sections "Base 128 Varints", "Message Structure" and "Length-Delimited Records".
 */
module Wire {
  import opened Integers
  import opened Wrappers
  import opened Utf8

  // ---- Varints --------------------------------------------------------------------------------------------

  function EncodeVarint(n: nat): (bs: seq<byte>)
    ensures |bs| >= 1
  {
    if n < 0x80 then [n] else [0x80 + n % 0x80] + EncodeVarint(n / 0x80)
  }

  /** Reads at most `k` bytes; yields the number and what is left. */
  function DecodeVarint(bs: seq<byte>, k: nat): (r: Option<(nat, seq<byte>)>)
    ensures r.Some? ==> |r.value.1| < |bs|
  {
    if k == 0 || bs == [] then None
    else if bs[0] < 0x80 then Some((bs[0], bs[1..]))
    else
      match DecodeVarint(bs[1..], k - 1)
      case None => None
      case Some((n, rest)) => Some((bs[0] - 0x80 + 0x80 * n, rest))
  }

  function Power128(k: nat): nat {
    if k == 0 then 1 else 0x80 * Power128(k - 1)
  }

  lemma {:induction false} VarintRoundTrip(n: nat, k: nat, rest: seq<byte>)
    requires k > 0 && n < Power128(k)
    ensures DecodeVarint(EncodeVarint(n) + rest, k) == Some((n, rest))
  {
    var bs := EncodeVarint(n) + rest;
    if n < 0x80 {
      assert bs[1..] == rest;
    } else {
      assert bs[1..] == EncodeVarint(n / 0x80) + rest;
      assert n == n % 0x80 + 0x80 * (n / 0x80);
      assert Power128(1) == 0x80 && k > 1 && n / 0x80 < Power128(k - 1);
      VarintRoundTrip(n / 0x80, k - 1, rest);
    }
  }

  const MAX_VARINT: nat := 10

  lemma Power128Covers()
    ensures Power128(MAX_VARINT) == 0x40_0000_0000_0000_0000
  {
    assert Power128(2) == 0x4000;
    assert Power128(4) == 0x1000_0000;
    assert Power128(6) == 0x400_0000_0000;
    assert Power128(8) == 0x100_0000_0000_0000;
  }

  /** A 64-bit varint; bits beyond the 64th are dropped. */
  function DecodeU64(bs: seq<byte>): (r: Option<(u64, seq<byte>)>)
    ensures r.Some? ==> |r.value.1| < |bs|
  {
    match DecodeVarint(bs, MAX_VARINT)
    case None => None
    case Some((n, rest)) => Some((n % TWO64, rest))
  }

  lemma U64RoundTrip(n: u64, rest: seq<byte>)
    ensures DecodeU64(EncodeVarint(n) + rest) == Some((n, rest))
  {
    Power128Covers();
    VarintRoundTrip(n, MAX_VARINT, rest);
  }

  // ---- Fixed-width numbers --------------------------------------------------------------------------------

  function EncodeFixed(n: nat, k: nat): (bs: seq<byte>)
    ensures |bs| == k
  {
    if k == 0 then [] else [n % 0x100] + EncodeFixed(n / 0x100, k - 1)
  }

  function DecodeFixed(bs: seq<byte>): nat {
    if bs == [] then 0 else bs[0] + 0x100 * DecodeFixed(bs[1..])
  }

  function Power256(k: nat): nat {
    if k == 0 then 1 else 0x100 * Power256(k - 1)
  }

  lemma {:induction false} FixedRoundTrip(n: nat, k: nat)
    requires n < Power256(k)
    ensures DecodeFixed(EncodeFixed(n, k)) == n
  {
    if k > 0 {
      assert EncodeFixed(n, k)[1..] == EncodeFixed(n / 0x100, k - 1);
      FixedRoundTrip(n / 0x100, k - 1);
    }
  }

  lemma {:induction false} DecodeFixedBounded(bs: seq<byte>)
    ensures DecodeFixed(bs) < Power256(|bs|)
  {
    if bs != [] {
      DecodeFixedBounded(bs[1..]);
    }
  }

  lemma Power256Covers()
    ensures Power256(4) == TWO32 && Power256(8) == TWO64
  {
    assert Power256(2) == 0x1_0000;
    assert Power256(4) == 0x1_0000_0000;
    assert Power256(6) == 0x1_0000_0000_0000;
  }

  // ---- Fields ---------------------------------------------------------------------------------------------

  /** A value with its wire type: varint (0), 64-bit (1), length-delimited (2) or 32-bit (5). */
  datatype Value = Varint(n: u64) | Fixed64(bits: u64) | Bytes(bs: seq<byte>) | Fixed32(low: u32)

  datatype Field = Field(number: nat, value: Value)

  function WireType(v: Value): nat {
    match v
    case Varint(_) => 0
    case Fixed64(_) => 1
    case Bytes(_) => 2
    case Fixed32(_) => 5
  }

  function EncodeTag(number: nat, wireType: nat): seq<byte> {
    EncodeVarint(number * 8 + wireType)
  }

  function EncodeValue(v: Value): seq<byte> {
    match v
    case Varint(n) => EncodeVarint(n)
    case Fixed64(bits) => EncodeFixed(bits, 8)
    case Bytes(bs) => EncodeVarint(|bs|) + bs
    case Fixed32(low) => EncodeFixed(low, 4)
  }

  function EncodeField(f: Field): (bs: seq<byte>)
    ensures |bs| >= 1
  {
    EncodeTag(f.number, WireType(f.value)) + EncodeValue(f.value)
  }

  function EncodeFields(fs: seq<Field>): seq<byte> {
    if fs == [] then [] else EncodeField(fs[0]) + EncodeFields(fs[1..])
  }

  /** Field number, wire type, and what is left; number 0 is refused. */
  function DecodeTag(bs: seq<byte>): (r: Option<(nat, nat, seq<byte>)>)
    ensures r.Some? ==> |r.value.2| < |bs|
  {
    match DecodeU64(bs)
    case None => None
    case Some((n, rest)) =>
      var tag := n % TWO32;
      if tag / 8 == 0 then None else Some((tag / 8, tag % 8, rest))
  }

  function DecodeBytes(bs: seq<byte>): (r: Option<(seq<byte>, seq<byte>)>)
    ensures r.Some? ==> |r.value.1| < |bs|
  {
    match DecodeU64(bs)
    case None => None
    case Some((n, rest)) => if n > |rest| then None else Some((rest[..n], rest[n..]))
  }

  function DecodeDouble(bs: seq<byte>): (r: Option<(u64, seq<byte>)>)
    ensures r.Some? ==> |r.value.1| < |bs|
  {
    if |bs| < 8 then None
    else
      DecodeFixedBounded(bs[..8]);
      Power256Covers();
      Some((DecodeFixed(bs[..8]), bs[8..]))
  }

  function DecodeFloat(bs: seq<byte>): (r: Option<(u32, seq<byte>)>)
    ensures r.Some? ==> |r.value.1| < |bs|
  {
    if |bs| < 4 then None
    else
      DecodeFixedBounded(bs[..4]);
      Power256Covers();
      Some((DecodeFixed(bs[..4]), bs[4..]))
  }

  /** A value of the given wire type; groups are not part of this model. */
  function DecodeValue(wireType: nat, bs: seq<byte>): (r: Option<(Value, seq<byte>)>)
    ensures r.Some? ==> |r.value.1| < |bs|
  {
    if wireType == 0 then
      match DecodeU64(bs)
      case None => None
      case Some((n, rest)) => Some((Varint(n), rest))
    else if wireType == 1 then
      match DecodeDouble(bs)
      case None => None
      case Some((bits, rest)) => Some((Fixed64(bits), rest))
    else if wireType == 2 then
      match DecodeBytes(bs)
      case None => None
      case Some((body, rest)) => Some((Bytes(body), rest))
    else if wireType == 5 then
      match DecodeFloat(bs)
      case None => None
      case Some((low, rest)) => Some((Fixed32(low), rest))
    else None
  }

  function DecodeField(bs: seq<byte>): (r: Option<(Field, seq<byte>)>)
    ensures r.Some? ==> |r.value.1| < |bs|
  {
    match DecodeTag(bs)
    case None => None
    case Some((number, wireType, rest)) =>
      match DecodeValue(wireType, rest)
      case None => None
      case Some((v, rest')) => Some((Field(number, v), rest'))
  }

  /** Fields the metric messages write: numbers below 16 take a tag of one byte; lengths are 32-bit. */
  predicate Writable(f: Field) {
    0 < f.number < 16 && (f.value.Bytes? ==> |f.value.bs| < TWO32)
  }

  lemma ValueRoundTrip(v: Value, rest: seq<byte>)
    requires v.Bytes? ==> |v.bs| < TWO32
    ensures DecodeValue(WireType(v), EncodeValue(v) + rest) == Some((v, rest))
  {
    match v
    case Varint(n) => U64RoundTrip(n, rest);
    case Fixed64(bits) =>
      var bs := EncodeFixed(bits, 8) + rest;
      assert bs[..8] == EncodeFixed(bits, 8) && bs[8..] == rest;
      Power256Covers();
      FixedRoundTrip(bits, 8);
    case Fixed32(low) =>
      var bs := EncodeFixed(low, 4) + rest;
      assert bs[..4] == EncodeFixed(low, 4) && bs[4..] == rest;
      Power256Covers();
      FixedRoundTrip(low, 4);
    case Bytes(body) =>
      assert EncodeVarint(|body|) + body + rest == EncodeVarint(|body|) + (body + rest);
      U64RoundTrip(|body|, body + rest);
      assert (body + rest)[..|body|] == body && (body + rest)[|body|..] == rest;
  }

  lemma FieldRoundTrip(f: Field, rest: seq<byte>)
    requires Writable(f)
    ensures DecodeField(EncodeField(f) + rest) == Some((f, rest))
  {
    var tail := EncodeValue(f.value) + rest;
    assert EncodeField(f) + rest == EncodeTag(f.number, WireType(f.value)) + tail;
    TagRoundTrip(f.number, WireType(f.value), tail);
    ValueRoundTrip(f.value, rest);
  }

  lemma TagRoundTrip(number: nat, wireType: nat, rest: seq<byte>)
    requires 0 < number < 16 && wireType < 8
    ensures DecodeTag(EncodeTag(number, wireType) + rest) == Some((number, wireType, rest))
  {
    var n := number * 8 + wireType;
    U64RoundTrip(n, rest);
    assert n % TWO32 == n && n / 8 == number && n % 8 == wireType;
  }

  // ---- Merging fields into a message ----------------------------------------------------------------------

  /** Feeds fields to a message one after another, until one is refused. */
  function ApplyAll<M>(apply: (M, Field) -> Option<M>, m: M, fs: seq<Field>): Option<M> {
    if fs == [] then Some(m)
    else
      match apply(m, fs[0])
      case None => None
      case Some(m') => ApplyAll(apply, m', fs[1..])
  }

  /** Reads a message to the end of its bytes. */
  function MergeBytes<M>(apply: (M, Field) -> Option<M>, m: M, bs: seq<byte>): Option<M>
    decreases |bs|
  {
    if bs == [] then Some(m)
    else
      match DecodeField(bs)
      case None => None
      case Some((f, rest)) =>
        match apply(m, f)
        case None => None
        case Some(m') => MergeBytes(apply, m', rest)
  }

  /** One turn of a parse loop: a tag, a value of the wire type it announces, and the field's effect. */
  lemma MergeStep<M>(apply: (M, Field) -> Option<M>, m: M, bs: seq<byte>)
    ensures bs == [] ==> MergeBytes(apply, m, bs) == Some(m)
    ensures bs != [] ==>
              match DecodeTag(bs)
              case None => MergeBytes(apply, m, bs).None?
              case Some((number, wireType, rest)) =>
                match DecodeValue(wireType, rest)
                case None => MergeBytes(apply, m, bs).None?
                case Some((v, rest')) =>
                  MergeBytes(apply, m, bs)
                  == match apply(m, Field(number, v)) case None => None case Some(m') => MergeBytes(apply, m', rest')
  {
  }

  predicate AllWritable(fs: seq<Field>) {
    forall i :: 0 <= i < |fs| ==> Writable(fs[i])
  }

  /** Reading what was written feeds exactly the written fields. */
  lemma {:induction false} MergeEncoded<M>(apply: (M, Field) -> Option<M>, m: M, fs: seq<Field>)
    requires AllWritable(fs)
    ensures MergeBytes(apply, m, EncodeFields(fs)) == ApplyAll(apply, m, fs)
    decreases |fs|
  {
    if fs != [] {
      FieldRoundTrip(fs[0], EncodeFields(fs[1..]));
      match apply(m, fs[0])
      case None =>
      case Some(m') => MergeEncoded(apply, m', fs[1..]);
    }
  }

  /** The fields of which a message knows the number. */
  function Known(known: nat -> bool, fs: seq<Field>): seq<Field> {
    if fs == [] then [] else (if known(fs[0].number) then [fs[0]] else []) + Known(known, fs[1..])
  }

  /** Fields that are passed over make no difference, wherever they are. */
  lemma {:induction false} PassesOver<M>(apply: (M, Field) -> Option<M>, known: nat -> bool, m: M, fs: seq<Field>)
    requires forall m': M, f: Field :: !known(f.number) ==> apply(m', f) == Some(m')
    ensures ApplyAll(apply, m, fs) == ApplyAll(apply, m, Known(known, fs))
    decreases |fs|
  {
    if fs != [] {
      if !known(fs[0].number) {
        PassesOver(apply, known, m, fs[1..]);
        assert [] + Known(known, fs[1..]) == Known(known, fs[1..]);
      } else {
        assert ([fs[0]] + Known(known, fs[1..]))[1..] == Known(known, fs[1..]);
        if apply(m, fs[0]).Some? {
          PassesOver(apply, known, apply(m, fs[0]).value, fs[1..]);
        }
      }
    }
  }

  /** Fields that lead from one message to the next lead from the first to the last. */
  lemma {:induction false} ApplyChain<M>(apply: (M, Field) -> Option<M>, ms: seq<M>, fs: seq<Field>)
    requires |ms| == |fs| + 1
    requires forall i :: 0 <= i < |fs| ==> apply(ms[i], fs[i]) == Some(ms[i + 1])
    ensures ApplyAll(apply, ms[0], fs) == Some(ms[|fs|])
    decreases |fs|
  {
    if fs != [] {
      ApplyChain(apply, ms[1..], fs[1..]);
    }
  }

  lemma {:induction false} ApplyConcat<M>(apply: (M, Field) -> Option<M>, m: M, a: seq<Field>, b: seq<Field>)
    ensures ApplyAll(apply, m, a + b)
         == match ApplyAll(apply, m, a) case None => None case Some(m') => ApplyAll(apply, m', b)
    decreases |a|
  {
    if a == [] {
      assert a + b == b;
    } else {
      assert (a + b)[1..] == a[1..] + b;
      match apply(m, a[0])
      case None =>
      case Some(m') => ApplyConcat(apply, m', a[1..], b);
    }
  }

  lemma {:induction false} EncodeConcat(a: seq<Field>, b: seq<Field>)
    ensures EncodeFields(a + b) == EncodeFields(a) + EncodeFields(b)
    decreases |a|
  {
    if a == [] {
      assert a + b == b;
    } else {
      assert (a + b)[1..] == a[1..] + b;
      EncodeConcat(a[1..], b);
      assert EncodeField(a[0]) + (EncodeFields(a[1..]) + EncodeFields(b))
          == EncodeField(a[0]) + EncodeFields(a[1..]) + EncodeFields(b);
    }
  }

  /** No field is longer than the message it is in. */
  lemma {:induction false} FieldFits(fs: seq<Field>, i: nat)
    requires i < |fs|
    ensures |EncodeField(fs[i])| <= |EncodeFields(fs)|
  {
    assert EncodeFields(fs) == EncodeField(fs[0]) + EncodeFields(fs[1..]);
    if i > 0 {
      assert fs[1..][i - 1] == fs[i];
      FieldFits(fs[1..], i - 1);
    }
  }

  // ---- Messages in sections -------------------------------------------------------------------------------

  /** The fields of a message, section by section. */
  function Flatten(ss: seq<seq<Field>>): seq<Field> {
    if ss == [] then [] else Flatten(ss[..|ss| - 1]) + ss[|ss| - 1]
  }

  predicate SmallNumbers(fs: seq<Field>) {
    forall i :: 0 <= i < |fs| ==> 0 < fs[i].number < 16
  }

  /** The fields of a message that is not too long can be written. */
  lemma FieldsWritable(fs: seq<Field>)
    requires SmallNumbers(fs) && |EncodeFields(fs)| < TWO32
    ensures AllWritable(fs)
  {
    forall i | 0 <= i < |fs| ensures Writable(fs[i]) {
      FieldFits(fs, i);
    }
  }

  lemma {:induction false} FlattenSmall(ss: seq<seq<Field>>)
    requires forall k :: 0 <= k < |ss| ==> SmallNumbers(ss[k])
    ensures SmallNumbers(Flatten(ss))
  {
    if ss != [] {
      FlattenSmall(ss[..|ss| - 1]);
    }
  }

  lemma {:induction false} SectionsWritable(ss: seq<seq<Field>>)
    requires AllWritable(Flatten(ss))
    ensures forall k :: 0 <= k < |ss| ==> AllWritable(ss[k])
  {
    if ss != [] {
      var front, last := ss[..|ss| - 1], ss[|ss| - 1];
      assert forall i :: 0 <= i < |Flatten(front)| ==> Flatten(front)[i] == Flatten(ss)[i];
      assert forall i :: 0 <= i < |last| ==> last[i] == Flatten(ss)[|Flatten(front)| + i];
      SectionsWritable(front);
    }
  }

  lemma {:induction false} SectionsChain<M>(apply: (M, Field) -> Option<M>, ms: seq<M>, ss: seq<seq<Field>>)
    requires |ms| == |ss| + 1
    requires forall k :: 0 <= k < |ss| ==> ApplyAll(apply, ms[k], ss[k]) == Some(ms[k + 1])
    ensures ApplyAll(apply, ms[0], Flatten(ss)) == Some(ms[|ss|])
    decreases |ss|
  {
    if ss != [] {
      var front, last := ss[..|ss| - 1], ss[|ss| - 1];
      SectionsChain(apply, ms[..|ss|], front);
      ApplyConcat(apply, ms[0], Flatten(front), last);
    }
  }

  /**
   A message whose sections each lead from one state of it to the next is rebuilt from its bytes; a section
   may count on its fields being writable, because no field is longer than the message.
   */
  lemma SectionsMerge<M>(apply: (M, Field) -> Option<M>, ms: seq<M>, ss: seq<seq<Field>>)
    requires |ms| == |ss| + 1
    requires |EncodeFields(Flatten(ss))| < TWO32
    requires forall k :: 0 <= k < |ss| ==> SmallNumbers(ss[k])
    requires forall k :: 0 <= k < |ss| && AllWritable(ss[k]) ==> ApplyAll(apply, ms[k], ss[k]) == Some(ms[k + 1])
    ensures MergeBytes(apply, ms[0], EncodeFields(Flatten(ss))) == Some(ms[|ss|])
  {
    FlattenSmall(ss);
    FieldsWritable(Flatten(ss));
    SectionsWritable(ss);
    SectionsChain(apply, ms, ss);
    MergeEncoded(apply, ms[0], Flatten(ss));
  }

  lemma ApplyOne<M>(apply: (M, Field) -> Option<M>, m: M, f: Field)
    ensures ApplyAll(apply, m, [f]) == apply(m, f)
    ensures ApplyAll(apply, m, []) == Some(m)
  {
    assert [f][1..] == [];
  }
}
