/** Strings as bytes: the UTF-8 encoding of characters, a strict decoder, and what bytes can occur. */
module Utf8 {
  import opened Wrappers

  type byte = n: nat | n < 0x100

  function EncodeChar(c: char): (bs: seq<byte>)
    ensures 1 <= |bs| <= 4
    ensures forall i :: 0 <= i < |bs| ==> bs[i] != 0xFF
  {
    var n := c as int;
    var q := n / 0x40;
    var r := q / 0x40;
    if n < 0x80 then [n]
    else if n < 0x800 then [0xC0 + q, 0x80 + n % 0x40]
    else if n < 0x1_0000 then [0xE0 + r, 0x80 + q % 0x40, 0x80 + n % 0x40]
    else [0xF0 + r / 0x40, 0x80 + r % 0x40, 0x80 + q % 0x40, 0x80 + n % 0x40]
  }

  function Encode(s: string): seq<byte> {
    if s == [] then [] else EncodeChar(s[0]) + Encode(s[1..])
  }

  predicate Continuation(b: byte) {
    0x80 <= b < 0xC0
  }

  function ToChar(n: nat): Option<char> {
    if n < 0xD800 || 0xE000 <= n < 0x11_0000 then Some(n as char) else None
  }

  /** The code point of a sequence of `k` bytes with these leading bits, refusing longer forms of smaller ones. */
  function DecodeMany(bs: seq<byte>, k: nat, lead: nat, least: nat): Option<(char, nat)>
    requires 2 <= k <= 4 && |bs| > 0 && lead <= bs[0]
  {
    if |bs| < k || !Continuation(bs[1]) || (k > 2 && !Continuation(bs[2])) || (k > 3 && !Continuation(bs[3])) then None
    else
      var n2 := (bs[0] - lead) * 0x40 + (bs[1] - 0x80);
      var n3 := if k > 2 then n2 * 0x40 + (bs[2] - 0x80) else n2;
      var n4 := if k > 3 then n3 * 0x40 + (bs[3] - 0x80) else n3;
      if n4 < least || ToChar(n4).None? then None else Some((ToChar(n4).value, k))
  }

  /** The first character and how many bytes it takes. */
  function DecodeChar(bs: seq<byte>): (r: Option<(char, nat)>)
    requires bs != []
    ensures r.Some? ==> 1 <= r.value.1 <= |bs|
  {
    var b := bs[0];
    if b < 0x80 then Some((b as char, 1))
    else if b < 0xC0 then None
    else if b < 0xE0 then DecodeMany(bs, 2, 0xC0, 0x80)
    else if b < 0xF0 then DecodeMany(bs, 3, 0xE0, 0x800)
    else if b < 0xF8 then DecodeMany(bs, 4, 0xF0, 0x1_0000)
    else None
  }

  function Decode(bs: seq<byte>): Option<string>
    decreases |bs|
  {
    if bs == [] then Some([])
    else
      match DecodeChar(bs)
      case None => None
      case Some((c, k)) =>
        match Decode(bs[k..])
        case None => None
        case Some(rest) => Some([c] + rest)
  }

  lemma CharRoundTrip(c: char, rest: seq<byte>)
    ensures DecodeChar(EncodeChar(c) + rest) == Some((c, |EncodeChar(c)|))
  {
    var bs, n, q, r := EncodeChar(c) + rest, c as int, c as int / 0x40, c as int / 0x40 / 0x40;
    assert n == q * 0x40 + n % 0x40;
    assert q == r * 0x40 + q % 0x40;
    assert ToChar(n) == Some(c);
    if n < 0x80 {
    } else if n < 0x800 {
      assert DecodeMany(bs, 2, 0xC0, 0x80) == Some((c, 2));
    } else if n < 0x1_0000 {
      assert DecodeMany(bs, 3, 0xE0, 0x800) == Some((c, 3));
    } else {
      assert DecodeMany(bs, 4, 0xF0, 0x1_0000) == Some((c, 4));
    }
  }

  lemma {:induction false} RoundTrip(s: string)
    ensures Decode(Encode(s)) == Some(s)
  {
    if s != [] {
      var rest := Encode(s[1..]);
      CharRoundTrip(s[0], rest);
      assert Encode(s) == EncodeChar(s[0]) + rest;
      assert Encode(s)[|EncodeChar(s[0])|..] == rest;
      RoundTrip(s[1..]);
      assert s == [s[0]] + s[1..];
    }
  }

  /** Different strings have different bytes. */
  lemma Injective(s: string, t: string)
    requires Encode(s) == Encode(t)
    ensures s == t
  {
    RoundTrip(s);
    RoundTrip(t);
  }

  /** The byte 0xFF never occurs in encoded text. */
  lemma {:induction false} NoSeparator(s: string)
    ensures 0xFF !in Encode(s)
  {
    if s != [] {
      NoSeparator(s[1..]);
    }
  }

  lemma SplitBits(high: nat, low: nat)
    requires low < 0x40
    ensures (high * 0x40 + low) / 0x40 == high && (high * 0x40 + low) % 0x40 == low
  {
  }

  /** Only the bytes that a character is encoded as are read as it. */
  lemma CharExact(bs: seq<byte>)
    requires bs != [] && DecodeChar(bs).Some?
    ensures EncodeChar(DecodeChar(bs).value.0) == bs[..DecodeChar(bs).value.1]
  {
    var (c, k) := DecodeChar(bs).value;
    var n := c as int;
    if k == 1 {
      assert bs[..1] == [bs[0]];
    } else {
      var lead: nat := if k == 2 then 0xC0 else if k == 3 then 0xE0 else 0xF0;
      var high: nat, low: nat := bs[0] - lead, bs[1] - 0x80;
      SplitBits(high, low);
      if k == 2 {
        assert n == high * 0x40 + low;
        assert bs[..2] == [bs[0], bs[1]];
      } else {
        var n2, next: nat := high * 0x40 + low, bs[2] - 0x80;
        SplitBits(n2, next);
        if k == 3 {
          assert n == n2 * 0x40 + next;
          assert bs[..3] == [bs[0], bs[1], bs[2]];
        } else {
          var n3, last: nat := n2 * 0x40 + next, bs[3] - 0x80;
          SplitBits(n3, last);
          assert n == n3 * 0x40 + last;
          assert bs[..4] == [bs[0], bs[1], bs[2], bs[3]];
        }
      }
    }
  }

  lemma EncodeCons(c: char, s: string)
    ensures Encode([c] + s) == EncodeChar(c) + Encode(s)
  {
    assert ([c] + s)[1..] == s;
  }

  lemma DecodeFirst(bs: seq<byte>) returns (c: char, head: seq<byte>, rest: seq<byte>)
    requires bs != [] && Decode(bs).Some?
    ensures bs == head + rest && |rest| < |bs| && EncodeChar(c) == head
    ensures Decode(rest).Some? && Decode(bs).value == [c] + Decode(rest).value
  {
    CharExact(bs);
    c := DecodeChar(bs).value.0;
    head, rest := bs[..DecodeChar(bs).value.1], bs[DecodeChar(bs).value.1..];
  }

  /** Bytes that are not the encoding of a text are refused. */
  lemma {:induction false} DecodeExact(bs: seq<byte>)
    requires Decode(bs).Some?
    ensures Encode(Decode(bs).value) == bs
    decreases |bs|
  {
    if bs != [] {
      var c, head, rest := DecodeFirst(bs);
      DecodeExact(rest);
      EncodeCons(c, Decode(rest).value);
    }
  }
}
