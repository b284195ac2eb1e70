/** The byte streams the messages are written to and read from. */
module ProtoStreams {
  import opened Integers
  import opened Wrappers
  import opened Utf8
  import opened Wire

  class CodedOutputStream {
    var buf: seq<byte>

    constructor ()
      ensures buf == []
    {
      buf := [];
    }

    method WriteTag(number: nat, wireType: nat)
      modifies this
      ensures buf == old(buf) + EncodeTag(number, wireType)
    {
      buf := buf + EncodeTag(number, wireType);
    }

    method WriteRawVarint(n: nat)
      modifies this
      ensures buf == old(buf) + EncodeVarint(n)
    {
      buf := buf + EncodeVarint(n);
    }

    method WriteString(number: nat, s: string)
      modifies this
      ensures buf == old(buf) + EncodeField(Field(number, Bytes(Encode(s))))
    {
      WriteTag(number, 2);
      var bs := Encode(s);
      WriteRawVarint(|bs|);
      buf := buf + bs;
    }

    method WriteDouble(number: nat, bits: u64)
      modifies this
      ensures buf == old(buf) + EncodeField(Field(number, Fixed64(bits)))
    {
      WriteTag(number, 1);
      buf := buf + EncodeFixed(bits, 8);
    }

    method WriteUint64(number: nat, n: u64)
      modifies this
      ensures buf == old(buf) + EncodeField(Field(number, Varint(n)))
    {
      WriteTag(number, 0);
      WriteRawVarint(n);
    }
  }

  class CodedInputStream {
    const buf: seq<byte>
    var pos: nat
    var limit: nat

    ghost predicate Valid()
      reads this
    {
      pos <= limit <= |buf|
    }

    /** The bytes from here to the limit. */
    ghost function Rest(): seq<byte>
      requires Valid()
      reads this
    {
      buf[pos..limit]
    }

    constructor (buf: seq<byte>)
      ensures Valid() && Rest() == buf && this.buf == buf
    {
      this.buf := buf;
      pos, limit := 0, |buf|;
    }

    predicate Eof()
      reads this
    {
      pos == limit
    }

    method ReadVarint(k: nat) returns (r: Option<nat>)
      requires Valid()
      modifies this`pos
      ensures Valid() && pos >= old(pos)
      ensures match DecodeVarint(old(Rest()), k)
              case None => r.None?
              case Some((n, rest)) => r == Some(n) && Rest() == rest
    {
      if k == 0 || pos == limit {
        return None;
      }
      var b := buf[pos];
      pos := pos + 1;
      assert Rest() == old(Rest())[1..];
      if b < 0x80 {
        return Some(b);
      }
      var high := ReadVarint(k - 1);
      if high.None? {
        return None;
      }
      r := Some(b - 0x80 + 0x80 * high.value);
    }

    method ReadUint64() returns (r: Option<u64>)
      requires Valid()
      modifies this`pos
      ensures Valid() && pos >= old(pos)
      ensures match DecodeU64(old(Rest()))
              case None => r.None?
              case Some((n, rest)) => r == Some(n) && Rest() == rest
    {
      var n := ReadVarint(MAX_VARINT);
      if n.None? {
        return None;
      }
      r := Some(n.value % TWO64);
    }

    method ReadTagUnpack() returns (r: Option<(nat, nat)>)
      requires Valid()
      modifies this`pos
      ensures Valid() && pos >= old(pos)
      ensures match DecodeTag(old(Rest()))
              case None => r.None?
              case Some((number, wireType, rest)) => r == Some((number, wireType)) && Rest() == rest
    {
      var n := ReadUint64();
      if n.None? {
        return None;
      }
      var tag := n.value % TWO32;
      r := if tag / 8 == 0 then None else Some((tag / 8, tag % 8));
    }

    method ReadDouble() returns (r: Option<u64>)
      requires Valid()
      modifies this`pos
      ensures Valid() && pos >= old(pos)
      ensures match DecodeDouble(old(Rest()))
              case None => r.None?
              case Some((bits, rest)) => r == Some(bits) && Rest() == rest
    {
      if limit - pos < 8 {
        return None;
      }
      var bs := buf[pos..pos + 8];
      DecodeFixedBounded(bs);
      Power256Covers();
      assert old(Rest())[..8] == bs && old(Rest())[8..] == buf[pos + 8..limit];
      pos := pos + 8;
      r := Some(DecodeFixed(bs));
    }

    method ReadFloat() returns (r: Option<u32>)
      requires Valid()
      modifies this`pos
      ensures Valid() && pos >= old(pos)
      ensures match DecodeFloat(old(Rest()))
              case None => r.None?
              case Some((low, rest)) => r == Some(low) && Rest() == rest
    {
      if limit - pos < 4 {
        return None;
      }
      var bs := buf[pos..pos + 4];
      DecodeFixedBounded(bs);
      Power256Covers();
      assert old(Rest())[..4] == bs && old(Rest())[4..] == buf[pos + 4..limit];
      pos := pos + 4;
      r := Some(DecodeFixed(bs));
    }

    method ReadBytes() returns (r: Option<seq<byte>>)
      requires Valid()
      modifies this`pos
      ensures Valid() && pos >= old(pos)
      ensures match DecodeBytes(old(Rest()))
              case None => r.None?
              case Some((body, rest)) => r == Some(body) && Rest() == rest
    {
      var n := ReadUint64();
      if n.None? || n.value > limit - pos {
        return None;
      }
      assert Rest()[..n.value] == buf[pos..pos + n.value] && Rest()[n.value..] == buf[pos + n.value..limit];
      var body := buf[pos..pos + n.value];
      pos := pos + n.value;
      r := Some(body);
    }

    method ReadString() returns (r: Option<string>)
      requires Valid()
      modifies this`pos
      ensures Valid() && pos >= old(pos)
      ensures match DecodeBytes(old(Rest()))
              case None => r.None?
              case Some((body, rest)) => r == Decode(body) && Rest() == rest
    {
      var body := ReadBytes();
      if body.None? {
        return None;
      }
      r := Decode(body.value);
    }

    /** Passes over a value of this wire type. */
    method SkipValue(wireType: nat) returns (ok: bool)
      requires Valid()
      modifies this`pos
      ensures Valid() && pos >= old(pos)
      ensures match DecodeValue(wireType, old(Rest()))
              case None => !ok
              case Some((_, rest)) => ok && Rest() == rest
    {
      if wireType == 0 {
        var n := ReadUint64();
        return n.Some?;
      } else if wireType == 1 {
        var bits := ReadDouble();
        return bits.Some?;
      } else if wireType == 2 {
        var body := ReadBytes();
        return body.Some?;
      } else if wireType == 5 {
        var low := ReadFloat();
        return low.Some?;
      }
      ok := false;
    }

    /** Confines reading to the length-delimited body that starts here; yields the limit to go back to. */
    method PushLimit() returns (outer: Option<nat>)
      requires Valid()
      modifies this
      ensures Valid()
      ensures match DecodeBytes(old(Rest()))
              case None => outer.None?
              case Some((body, rest)) =>
                outer == Some(old(limit)) && Rest() == body && limit <= old(limit) && buf[limit..old(limit)] == rest
    {
      var n := ReadUint64();
      if n.None? || n.value > limit - pos {
        return None;
      }
      assert Rest()[..n.value] == buf[pos..pos + n.value] && Rest()[n.value..] == buf[pos + n.value..limit];
      outer := Some(limit);
      limit := pos + n.value;
    }

    method PopLimit(outer: nat)
      requires Valid() && Eof() && limit <= outer <= |buf|
      modifies this
      ensures Valid() && limit == outer && Rest() == buf[old(limit)..outer]
    {
      limit := outer;
    }
  }
}
