/** The delimited stream: every family is checked, then written after a prefix that holds its length. */
module ProtoEncoder {
  import opened Integers
  import opened Wrappers
  import opened Sequences
  import opened Utf8
  import opened Wire
  import opened ProtoModel
  import opened ProtoStreams
  import opened ProtoRoundTrip
  import opened ProtoWriter
  import opened ProtoReader
  import opened Encoding

  function Check(m: MetricFamily): Result<(), Refusal> {
    CheckMetricFamily(|m.metric|, if m.name.None? then "" else m.name.value)
  }

  // ---- Delimited streams of any message -------------------------------------------------------------------

  /** A message after its length. */
  function DelimitedOne<M>(codec: Codec<M>, m: M): (bs: seq<byte>)
    ensures |bs| >= 1
  {
    EncodeVarint(|codec.bytes(m)|) + codec.bytes(m)
  }

  function Delimited<M>(codec: Codec<M>, ms: seq<M>): seq<byte> {
    if ms == [] then [] else Delimited(codec, ms[..|ms| - 1]) + DelimitedOne(codec, ms[|ms| - 1])
  }

  /** Reads messages to the end of the stream; `None` where one cannot be read. */
  function ReadDelimited<M>(codec: Codec<M>, bs: seq<byte>): Option<seq<M>>
    decreases |bs|
  {
    if bs == [] then Some([])
    else
      match DecodeBytes(bs)
      case None => None
      case Some((body, rest)) =>
        match codec.parse(body)
        case None => None
        case Some(m) => Before([m], ReadDelimited(codec, rest))
  }

  function Before<M>(ms: seq<M>, r: Option<seq<M>>): Option<seq<M>> {
    match r
    case None => None
    case Some(rest) => Some(ms + rest)
  }

  lemma BeforeBefore<M>(a: seq<M>, b: seq<M>, r: Option<seq<M>>)
    ensures Before(a, Before(b, r)) == Before(a + b, r)
    ensures Before([], r) == r
  {
    if r.Some? {
      assert a + (b + r.value) == a + b + r.value && [] + r.value == r.value;
    }
  }

  lemma DecodeBytesAfterLength(body: seq<byte>, rest: seq<byte>)
    requires |body| < TWO32
    ensures DecodeBytes(EncodeVarint(|body|) + body + rest) == Some((body, rest))
  {
    Associate(EncodeVarint(|body|), body, rest);
    U64RoundTrip(|body|, body + rest);
    assert (body + rest)[..|body|] == body && (body + rest)[|body|..] == rest;
  }

  /** A message that is shorter than 2^32 bytes and is read back from them. */
  ghost predicate Delimitable<M>(codec: Codec<M>, m: M) {
    |codec.bytes(m)| < TWO32 && codec.parse(codec.bytes(m)) == Some(m)
  }

  lemma ReadOne<M>(codec: Codec<M>, m: M, rest: seq<byte>)
    requires Delimitable(codec, m)
    ensures ReadDelimited(codec, DelimitedOne(codec, m) + rest) == Before([m], ReadDelimited(codec, rest))
  {
    DecodeBytesAfterLength(codec.bytes(m), rest);
  }

  lemma {:induction false} ReadDelimitedBefore<M>(codec: Codec<M>, ms: seq<M>, rest: seq<byte>)
    requires forall i :: 0 <= i < |ms| ==> Delimitable(codec, ms[i])
    ensures ReadDelimited(codec, Delimited(codec, ms) + rest) == Before(ms, ReadDelimited(codec, rest))
  {
    if ms == [] {
      assert Delimited(codec, ms) + rest == rest;
      BeforeBefore([], [], ReadDelimited(codec, rest));
    } else {
      var front, last := ms[..|ms| - 1], ms[|ms| - 1];
      ReadDelimitedBefore(codec, front, DelimitedOne(codec, last) + rest);
      Associate(Delimited(codec, front), DelimitedOne(codec, last), rest);
      ReadOne(codec, last, rest);
      BeforeBefore(front, [last], ReadDelimited(codec, rest));
      assert front + [last] == ms;
    }
  }

  /** Everything written to a stream is read back from it, message by message. */
  lemma ReadDelimitedAll<M>(codec: Codec<M>, ms: seq<M>)
    requires forall i :: 0 <= i < |ms| ==> Delimitable(codec, ms[i])
    ensures ReadDelimited(codec, Delimited(codec, ms)) == Some(ms)
  {
    ReadDelimitedBefore(codec, ms, []);
    Associate(Delimited(codec, ms), [], []);
    assert ms + [] == ms;
  }

  lemma DelimitedNext<M>(codec: Codec<M>, ms: seq<M>, i: nat)
    requires i < |ms|
    ensures Delimited(codec, ms[..i + 1]) == Delimited(codec, ms[..i]) + DelimitedOne(codec, ms[i])
  {
    assert ms[..i + 1][..i] == ms[..i];
  }

  // ---- Families -------------------------------------------------------------------------------------------

  const FAMILY_CODEC: Codec<MetricFamily> := Codec(FamilyBytes, ParseFamily)

  /** A stream of families is read back as the same families. */
  lemma DelimitedRoundTrip(ms: seq<MetricFamily>)
    requires forall i :: 0 <= i < |ms| ==> |FamilyBytes(ms[i])| < TWO32
    ensures ReadDelimited(FAMILY_CODEC, Delimited(FAMILY_CODEC, ms)) == Some(ms)
  {
    forall i | 0 <= i < |ms| ensures Delimitable(FAMILY_CODEC, ms[i]) {
      FamilyRoundTrip(ms[i]);
    }
    ReadDelimitedAll(FAMILY_CODEC, ms);
  }

  /** Sizes first, then the length prefix, then the body with the nested lengths from the table. */
  method WriteLengthDelimited(m: MetricFamily, os: CodedOutputStream)
    requires |FamilyBytes(m)| < TWO32
    modifies os
    ensures os.buf == old(os.buf) + DelimitedOne(FAMILY_CODEC, m)
  {
    var z := ComputeFamilySize(m);
    os.WriteRawVarint(z.total);
    WriteFamily(m, z, os);
    Associate(old(os.buf), EncodeVarint(|FamilyBytes(m)|), FamilyBytes(m));
  }

  // The loop below sees each family's bytes only as one of the pieces that the stream is put together of.

  function Joined(pieces: seq<seq<byte>>): seq<byte> {
    if pieces == [] then [] else Joined(pieces[..|pieces| - 1]) + pieces[|pieces| - 1]
  }

  ghost predicate PiecesOf(ms: seq<MetricFamily>, pieces: seq<seq<byte>>) {
    && |pieces| == |ms|
    && (ms != [] ==>
          && pieces[0] == DelimitedOne(FAMILY_CODEC, ms[0]) && |FamilyBytes(ms[0])| < TWO32
          && PiecesOf(ms[1..], pieces[1..]))
  }

  lemma {:induction false} Pieces(ms: seq<MetricFamily>) returns (pieces: seq<seq<byte>>)
    requires forall i :: 0 <= i < |ms| ==> |FamilyBytes(ms[i])| < TWO32
    ensures PiecesOf(ms, pieces)
  {
    pieces := [];
    if ms != [] {
      pieces := Pieces(ms[1..]);
      pieces := [DelimitedOne(FAMILY_CODEC, ms[0])] + pieces;
    }
  }

  lemma {:induction false} PieceAt(ms: seq<MetricFamily>, pieces: seq<seq<byte>>, i: nat)
    requires PiecesOf(ms, pieces) && i < |ms|
    ensures pieces[i] == DelimitedOne(FAMILY_CODEC, ms[i]) && |FamilyBytes(ms[i])| < TWO32
  {
    if i > 0 {
      PieceAt(ms[1..], pieces[1..], i - 1);
    }
  }

  lemma {:induction false} JoinedPieces(ms: seq<MetricFamily>, pieces: seq<seq<byte>>, k: nat)
    requires PiecesOf(ms, pieces) && k <= |ms|
    ensures Joined(pieces[..k]) == Delimited(FAMILY_CODEC, ms[..k])
  {
    if k > 0 {
      JoinedPieces(ms, pieces, k - 1);
      PieceAt(ms, pieces, k - 1);
      OneMorePiece(FAMILY_CODEC, ms, pieces, k - 1);
    }
  }

  lemma OneMorePiece<M>(codec: Codec<M>, ms: seq<M>, pieces: seq<seq<byte>>, k: nat)
    requires |pieces| == |ms| && k < |ms| && pieces[k] == DelimitedOne(codec, ms[k])
    requires Joined(pieces[..k]) == Delimited(codec, ms[..k])
    ensures Joined(pieces[..k + 1]) == Delimited(codec, ms[..k + 1])
  {
    DelimitedNext(codec, ms, k);
    assert pieces[..k + 1][..k] == pieces[..k];
  }

  method WriteNext(ms: seq<MetricFamily>, i: nat, os: CodedOutputStream, ghost o: seq<byte>, ghost pieces: seq<seq<byte>>)
    requires i < |ms| && PiecesOf(ms, pieces) && os.buf == o + Joined(pieces[..i])
    modifies os
    ensures os.buf == o + Joined(pieces[..i + 1])
  {
    PieceAt(ms, pieces, i);
    WriteLengthDelimited(ms[i], os);
    assert pieces[..i + 1][..i] == pieces[..i];
    Associate(o, Joined(pieces[..i]), pieces[i]);
  }

  method CheckNext(ms: seq<MetricFamily>, i: nat) returns (r: Result<(), Refusal>)
    requires i < |ms| && i <= Accepted(Check, ms)
    ensures r == Check(ms[i])
    ensures r.Ok? ==> i < Accepted(Check, ms)
    ensures r.Err? ==> i == Accepted(Check, ms)
  {
    r := Check(ms[i]);
  }

  method WriteAccepted(ms: seq<MetricFamily>, os: CodedOutputStream, ghost pieces: seq<seq<byte>>)
    returns (r: Result<(), Refusal>)
    requires PiecesOf(ms, pieces)
    modifies os
    ensures os.buf == old(os.buf) + Joined(pieces[..Accepted(Check, ms)])
    ensures r == if Accepted(Check, ms) < |ms| then Check(ms[Accepted(Check, ms)]) else Ok(())
  {
    ghost var o := os.buf;
    Associate(o, [], []);
    for i := 0 to |ms|
      invariant i <= Accepted(Check, ms) && os.buf == o + Joined(pieces[..i])
    {
      r := CheckNext(ms, i);
      if r.Err? {
        return r;
      }
      WriteNext(ms, i, os, o, pieces);
    }
    r := Ok(());
  }

  /** Families before the first refused one are written; an error leaves them in the stream. */
  method EncodeFamilies(ms: seq<MetricFamily>, os: CodedOutputStream) returns (r: Result<(), Refusal>)
    requires forall i :: 0 <= i < |ms| ==> |FamilyBytes(ms[i])| < TWO32
    modifies os
    ensures os.buf == old(os.buf) + Delimited(FAMILY_CODEC, ms[..Accepted(Check, ms)])
    ensures r == if Accepted(Check, ms) < |ms| then Check(ms[Accepted(Check, ms)]) else Ok(())
  {
    ghost var pieces := Pieces(ms);
    r := WriteAccepted(ms, os, pieces);
    JoinedPieces(ms, pieces, Accepted(Check, ms));
  }

  /** All passes over one family: sizes, bytes, and the parse of these bytes, which gives the family back. */
  method WriteAndMerge(m: MetricFamily) returns (r: Option<MetricFamily>, input: CodedInputStream)
    requires |FamilyBytes(m)| < TWO32
    ensures r == Some(m) && input.buf == FamilyBytes(m) && input.Valid() && input.Eof()
  {
    var os := new CodedOutputStream();
    var z := ComputeFamilySize(m);
    WriteFamily(m, z, os);
    assert [] + FamilyBytes(m) == FamilyBytes(m);
    input := new CodedInputStream(os.buf);
    FamilyRoundTrip(m);
    r := MergeFamily(input);
  }
}
