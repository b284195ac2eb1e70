/** Escaping of help texts and label values. */
module Escaping {
  import opened Wrappers
  import opened Sequences

  /** Backslash and newline always; the double quote in label values only. */
  predicate Special(c: char, quotes: bool) {
    c == '\\' || c == '\n' || (quotes && c == '\"')
  }

  function EscapeChar(c: char, quotes: bool): string {
    if !Special(c, quotes) then [c] else if c == '\n' then "\\n" else ['\\', c]
  }

  /** Every character on its own. */
  function Escape(s: string, quotes: bool): string {
    if s == [] then [] else EscapeChar(s[0], quotes) + Escape(s[1..], quotes)
  }

  lemma {:induction false} EscapeConcat(a: string, b: string, quotes: bool)
    ensures Escape(a + b, quotes) == Escape(a, quotes) + Escape(b, quotes)
  {
    if a == [] {
      assert a + b == b;
    } else {
      assert (a + b)[1..] == a[1..] + b;
      EscapeConcat(a[1..], b, quotes);
      Associate(EscapeChar(a[0], quotes), Escape(a[1..], quotes), Escape(b, quotes));
    }
  }

  lemma EscapeNext(s: string, i: nat, quotes: bool)
    requires i < |s|
    ensures Escape(s[..i + 1], quotes) == Escape(s[..i], quotes) + EscapeChar(s[i], quotes)
  {
    assert s[..i + 1] == s[..i] + [s[i]] && [s[i]][1..] == [];
    EscapeConcat(s[..i], [s[i]], quotes);
    assert Escape([s[i]], quotes) == EscapeChar(s[i], quotes) + Escape([], quotes);
  }

  lemma {:induction false} EscapePlain(s: string, quotes: bool)
    requires forall i :: 0 <= i < |s| ==> !Special(s[i], quotes)
    ensures Escape(s, quotes) == s
  {
    if s != [] {
      EscapePlain(s[1..], quotes);
    }
  }

  /** One character: a quote is left alone in a help text, and everything else that is not special in both. */
  lemma EscapeTells(c: char, quotes: bool)
    ensures Escape([c], quotes)
         == if c == '\\' then "\\\\" else if c == '\n' then "\\n" else if c == '\"' && quotes then "\\\"" else [c]
  {
    assert [c][1..] == [] && Escape([c], quotes) == EscapeChar(c, quotes) + Escape([], quotes);
  }

  lemma HelpKeepsQuotes(s: string)
    requires '\\' !in s && '\n' !in s
    ensures Escape(s, false) == s
    ensures Escape(s, true) == s <==> '\"' !in s
  {
    EscapePlain(s, false);
    if '\"' !in s {
      EscapePlain(s, true);
    } else {
      QuotesEscaped(s);
      var i :| 0 <= i < |s| && s[i] == '\"';
      NoBackslashes(s, i);
    }
  }

  lemma NoBackslashes(s: string, i: nat)
    requires '\\' !in s && i <= |s|
    ensures BackslashesBefore(s, i) == 0
  {
  }

  // ---- The scan, then the copy ----------------------------------------------------------------------------

  method FindFirstOccurrence(v: string, includeDoubleQuote: bool) returns (r: Option<nat>)
    ensures r.Some? ==> r.value < |v| && Special(v[r.value], includeDoubleQuote)
    ensures forall i :: 0 <= i < (if r.Some? then r.value else |v|) ==> !Special(v[i], includeDoubleQuote)
  {
    for i := 0 to |v|
      invariant forall j :: 0 <= j < i ==> !Special(v[j], includeDoubleQuote)
    {
      if Special(v[i], includeDoubleQuote) {
        return Some(i);
      }
    }
    r := None;
  }

  /** Copies what comes before the first special character as it is, and escapes from there on. */
  method EscapeString(v: string, includeDoubleQuote: bool) returns (escaped: string)
    ensures escaped == Escape(v, includeDoubleQuote)
  {
    var first := FindFirstOccurrence(v, includeDoubleQuote);
    if first.None? {
      EscapePlain(v, includeDoubleQuote);
      return v;
    }
    escaped := v[..first.value];
    EscapePlain(escaped, includeDoubleQuote);
    for i := first.value to |v|
      invariant escaped == Escape(v[..i], includeDoubleQuote)
    {
      EscapeNext(v, i, includeDoubleQuote);
      var c := v[i];
      if c == '\\' {
        escaped := escaped + "\\\\";
      } else if c == '\n' {
        escaped := escaped + "\\n";
      } else if c == '\"' && includeDoubleQuote {
        escaped := escaped + "\\\"";
      } else {
        escaped := escaped + [c];
      }
    }
    assert v[..|v|] == v;
  }

  // ---- Reading back ---------------------------------------------------------------------------------------

  /** The character written as `\c`. */
  function UnescapeChar(c: char): Option<char> {
    if c == 'n' then Some('\n') else if c == '\\' || c == '\"' then Some(c) else None
  }

  function Unescape(s: string): Option<string> {
    if s == [] then Some([])
    else if s[0] != '\\' then
      match Unescape(s[1..])
      case None => None
      case Some(t) => Some([s[0]] + t)
    else if |s| == 1 || UnescapeChar(s[1]).None? then None
    else
      match Unescape(s[2..])
      case None => None
      case Some(t) => Some([UnescapeChar(s[1]).value] + t)
  }

  lemma {:induction false} UnescapeEscape(s: string, quotes: bool)
    ensures Unescape(Escape(s, quotes)) == Some(s)
  {
    if s != [] {
      UnescapeEscape(s[1..], quotes);
      var e := Escape(s, quotes);
      assert e[|EscapeChar(s[0], quotes)|..] == Escape(s[1..], quotes);
      assert [s[0]] + s[1..] == s;
    }
  }

  /** A label value up to the quote that ends it, and what follows that quote. */
  function ReadQuoted(s: string): (r: Option<(string, string)>)
    ensures r.Some? ==> |r.value.1| < |s|
  {
    if s == [] then None
    else if s[0] == '\"' then Some(([], s[1..]))
    else if s[0] != '\\' then
      match ReadQuoted(s[1..])
      case None => None
      case Some((v, rest)) => Some(([s[0]] + v, rest))
    else if |s| == 1 || UnescapeChar(s[1]).None? then None
    else
      match ReadQuoted(s[2..])
      case None => None
      case Some((v, rest)) => Some(([UnescapeChar(s[1]).value] + v, rest))
  }

  lemma ReadQuotedChar(c: char, tail: string)
    ensures ReadQuoted(EscapeChar(c, true) + tail)
         == match ReadQuoted(tail) case None => None case Some((v, rest)) => Some(([c] + v, rest))
  {
    assert (EscapeChar(c, true) + tail)[|EscapeChar(c, true)|..] == tail;
  }

  lemma {:induction false} ReadQuotedEscape(v: string, rest: string)
    ensures ReadQuoted(Escape(v, true) + ['\"'] + rest) == Some((v, rest))
  {
    if v == [] {
      assert (Escape(v, true) + ['\"'] + rest)[1..] == rest;
    } else {
      var tail := Escape(v[1..], true) + ['\"'] + rest;
      ReadQuotedEscape(v[1..], rest);
      assert Escape(v, true) + ['\"'] + rest == EscapeChar(v[0], true) + tail;
      ReadQuotedChar(v[0], tail);
      assert [v[0]] + v[1..] == v;
    }
  }

  // ---- What the output looks like -------------------------------------------------------------------------

  lemma {:induction false} NoNewline(s: string, quotes: bool)
    ensures '\n' !in Escape(s, quotes)
  {
    if s != [] {
      NoNewline(s[1..], quotes);
    }
  }

  /** How many backslashes stand right before place `i`. */
  function BackslashesBefore(s: string, i: nat): nat
    requires i <= |s|
  {
    if i == 0 || s[i - 1] != '\\' then 0 else 1 + BackslashesBefore(s, i - 1)
  }

  lemma {:induction false} BackslashesAfterPrefix(a: string, b: string, i: nat)
    requires i <= |b|
    ensures BackslashesBefore(a + b, |a| + i)
         == BackslashesBefore(b, i) + if BackslashesBefore(b, i) == i then BackslashesBefore(a, |a|) else 0
  {
    if i > 0 {
      if b[i - 1] == '\\' {
        BackslashesAfterPrefix(a, b, i - 1);
      }
    } else {
      BackslashesPrefix(a, b, |a|);
    }
  }

  lemma {:induction false} BackslashesPrefix(a: string, b: string, i: nat)
    requires i <= |a|
    ensures BackslashesBefore(a + b, i) == BackslashesBefore(a, i)
  {
    if i > 0 {
      BackslashesPrefix(a, b, i - 1);
    }
  }

  /** A quote in an escaped label value is escaped, and the quote put after the value is not. */
  lemma {:induction false} QuotesEscaped(s: string)
    ensures BackslashesBefore(Escape(s, true), |Escape(s, true)|) % 2 == 0
    ensures forall i :: 0 <= i < |Escape(s, true)| && Escape(s, true)[i] == '\"'
              ==> BackslashesBefore(Escape(s, true), i) % 2 == 1
  {
    if s != [] {
      QuotesEscaped(s[1..]);
      QuotesEscapedBehind(s[0], Escape(s[1..], true));
    }
  }

  lemma QuotesEscapedBehind(c: char, b: string)
    requires BackslashesBefore(b, |b|) % 2 == 0
    requires forall i :: 0 <= i < |b| && b[i] == '\"' ==> BackslashesBefore(b, i) % 2 == 1
    ensures var e := EscapeChar(c, true) + b;
            && BackslashesBefore(e, |e|) % 2 == 0
            && forall i :: 0 <= i < |e| && e[i] == '\"' ==> BackslashesBefore(e, i) % 2 == 1
  {
    var a := EscapeChar(c, true);
    EscapedCharEven(c);
    BackslashesAfterPrefix(a, b, |b|);
    forall i | 0 <= i < |a + b| && (a + b)[i] == '\"' ensures BackslashesBefore(a + b, i) % 2 == 1 {
      if i < |a| {
        BackslashesPrefix(a, b, i);
      } else {
        BackslashesAfterPrefix(a, b, i - |a|);
      }
    }
  }

  /** The escape of one character ends in no backslash, or in two. */
  lemma EscapedCharEven(c: char)
    ensures var a := EscapeChar(c, true);
            && BackslashesBefore(a, |a|) % 2 == 0
            && forall i :: 0 <= i < |a| && a[i] == '\"' ==> BackslashesBefore(a, i) % 2 == 1
  {
    assert BackslashesBefore(EscapeChar(c, true), 0) == 0;
  }
}
