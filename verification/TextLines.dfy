/**
 Lines of the Prometheus text exposition format 0.0.4, how they are printed, and a parser for them that
 follows the format's sections "Comments, help text, and type information" and "Text format details".
 */
module TextLines {
  import opened Wrappers
  import opened Sequences
  import opened Floats
  import opened Model
  import opened Escaping

  /** How numbers are printed and read, and what a 64-bit count becomes as a float. */
  datatype Printer = Printer(show: F64 -> string, parse: string -> Option<F64>, fromCount: nat -> F64)

  /** A number is printed as one word from which it can be read again; only infinity may be `+Inf`. */
  ghost predicate Printable(p: Printer, v: F64) {
    && p.parse(p.show(v)) == Some(v)
    && p.show(v) != "" && ' ' !in p.show(v) && '\t' !in p.show(v) && '\n' !in p.show(v)
    && (p.show(v) == "+Inf" ==> v == PosInf)
  }

  datatype Line =
    | HelpLine(name: string, help: string)
    | TypeLine(name: string, fieldType: MetricType)
    | Sample(name: string, labels: seq<LabelPair>, value: F64, timestampMs: int)

  // ---- Names ----------------------------------------------------------------------------------------------

  predicate NameChar(c: char) {
    'a' <= c <= 'z' || 'A' <= c <= 'Z' || '0' <= c <= '9' || c == '_' || c == ':'
  }

  predicate ValidName(s: string) {
    s != "" && forall i :: 0 <= i < |s| ==> NameChar(s[i])
  }

  predicate ValidLabels(labels: seq<LabelPair>) {
    forall i :: 0 <= i < |labels| ==> ValidName(labels[i].name)
  }

  /** How many characters of a name `s` starts with. */
  function NameLength(s: string): (k: nat)
    ensures k <= |s|
  {
    if s == [] || !NameChar(s[0]) then 0 else 1 + NameLength(s[1..])
  }

  lemma {:induction false} NameLengthBefore(name: string, rest: string)
    requires forall i :: 0 <= i < |name| ==> NameChar(name[i])
    requires rest == [] || !NameChar(rest[0])
    ensures NameLength(name + rest) == |name|
  {
    if name == [] {
      assert name + rest == rest;
    } else {
      assert (name + rest)[1..] == name[1..] + rest;
      NameLengthBefore(name[1..], rest);
    }
  }

  /** A name and what follows it. */
  function ReadName(s: string): (r: Option<(string, string)>)
    ensures r.Some? ==> |r.value.1| < |s|
  {
    var k := NameLength(s);
    if k == 0 then None else Some((s[..k], s[k..]))
  }

  lemma ReadNameBefore(name: string, rest: string)
    requires ValidName(name) && (rest == [] || !NameChar(rest[0]))
    ensures ReadName(name + rest) == Some((name, rest))
  {
    NameLengthBefore(name, rest);
    assert (name + rest)[..|name|] == name && (name + rest)[|name|..] == rest;
  }

  // ---- Types ----------------------------------------------------------------------------------------------

  function TypeName(t: MetricType): string {
    match t
    case COUNTER => "counter"
    case GAUGE => "gauge"
    case SUMMARY => "summary"
    case UNTYPED => "untyped"
    case HISTOGRAM => "histogram"
  }

  function ReadType(s: string): Option<MetricType> {
    if s == "counter" then Some(COUNTER)
    else if s == "gauge" then Some(GAUGE)
    else if s == "summary" then Some(SUMMARY)
    else if s == "untyped" then Some(UNTYPED)
    else if s == "histogram" then Some(HISTOGRAM)
    else None
  }

  lemma TypeReads(t: MetricType)
    ensures ReadType(TypeName(t)) == Some(t)
    ensures '\n' !in TypeName(t)
  {
    if t.GAUGE? || t.UNTYPED? || t.SUMMARY? {
      assert |TypeName(t)| == (if t.GAUGE? then 5 else 7) && TypeName(t)[0] != 'c';
      assert t.UNTYPED? ==> TypeName(t)[0] == 'u' && "summary"[0] == 's';
    } else {
      assert |TypeName(t)| == if t.COUNTER? then 7 else 9;
    }
  }

  // ---- Whole numbers, for timestamps ----------------------------------------------------------------------

  predicate Digit(c: char) {
    '0' <= c <= '9'
  }

  function ShowNat(n: nat): string {
    if n < 10 then [n as char + '0'] else ShowNat(n / 10) + [(n % 10) as char + '0']
  }

  function ShowInt(n: int): string {
    if n < 0 then ['-'] + ShowNat(-n) else ShowNat(n)
  }

  function ReadNat(s: string): Option<int> {
    if s == [] || !Digit(s[|s| - 1]) then None
    else
      var d := s[|s| - 1] as int - '0' as int;
      if |s| == 1 then Some(d)
      else
        match ReadNat(s[..|s| - 1])
        case None => None
        case Some(n) => Some(10 * n + d)
  }

  function ReadInt(s: string): Option<int> {
    if s != [] && s[0] == '-' then
      match ReadNat(s[1..])
      case None => None
      case Some(n) => Some(-n)
    else ReadNat(s)
  }

  lemma {:induction false} NatReads(n: nat)
    ensures ReadNat(ShowNat(n)) == Some(n)
    ensures ShowNat(n) != [] && forall i :: 0 <= i < |ShowNat(n)| ==> Digit(ShowNat(n)[i])
  {
    if n >= 10 {
      NatReads(n / 10);
      assert ShowNat(n)[..|ShowNat(n)| - 1] == ShowNat(n / 10);
    }
  }

  lemma IntReads(n: int)
    ensures ReadInt(ShowInt(n)) == Some(n)
    ensures forall i :: 0 <= i < |ShowInt(n)| ==> Digit(ShowInt(n)[i]) || ShowInt(n)[i] == '-'
  {
    NatReads(if n < 0 then -n else n);
    if n < 0 {
      assert ShowInt(n)[1..] == ShowNat(-n);
    }
  }

  // ---- Labels ---------------------------------------------------------------------------------------------

  function ShowLabel(l: LabelPair): string {
    l.name + "=\"" + Escape(l.value, true) + "\""
  }

  /** Labels, each after its separator: the first one after `sep`, the others after commas. */
  function ShowPairs(sep: string, labels: seq<LabelPair>): string
    decreases |labels|
  {
    if labels == [] then "" else sep + ShowLabel(labels[0]) + ShowPairs(",", labels[1..])
  }

  function ShowLabels(labels: seq<LabelPair>): string {
    if labels == [] then "" else ShowPairs("{", labels) + "}"
  }

  function ReadLabel(s: string): (r: Option<(LabelPair, string)>)
    ensures r.Some? ==> |r.value.1| < |s|
  {
    match ReadName(s)
    case None => None
    case Some((name, rest)) =>
      if !("=\"" <= rest) then None
      else
        match ReadQuoted(Strip("=\"", rest))
        case None => None
        case Some((value, rest')) => Some((LabelPair(name, value), rest'))
  }

  /** Labels up to the closing brace, and what follows it. */
  function ReadLabels(s: string): (r: Option<(seq<LabelPair>, string)>)
    decreases |s|
  {
    match ReadLabel(s)
    case None => None
    case Some((l, rest)) =>
      if "}" <= rest then Some(([l], Strip("}", rest)))
      else if !("," <= rest) then None
      else
        match ReadLabels(Strip(",", rest))
        case None => None
        case Some((more, rest')) => Some(([l] + more, rest'))
  }

  // ---- Lines ----------------------------------------------------------------------------------------------

  // What the encoder starts these lines with.  The reader has its own words.

  const HELP := "# HELP "
  const TYPE := "# TYPE "

  function ShowLine(p: Printer, l: Line): string {
    match l
    case HelpLine(name, help) => HELP + name + " " + Escape(help, false)
    case TypeLine(name, t) => TYPE + name + " " + TypeName(t)
    case Sample(name, labels, value, ts) =>
      name + ShowLabels(labels) + " " + p.show(value) + if ts == 0 then "" else " " + ShowInt(ts)
  }

  /** Blanks and tabs separate the words of a line. */
  predicate Blank(c: char) {
    c == ' ' || c == '\t'
  }

  function DropBlanks(s: string): string {
    if s != [] && Blank(s[0]) then DropBlanks(s[1..]) else s
  }

  /** Everything from the first character on that is neither a blank nor a tab. */
  lemma {:induction false} DropBlanksTells(s: string) returns (k: nat)
    ensures k <= |s| && DropBlanks(s) == s[k..]
    ensures forall i :: 0 <= i < k ==> s[i] == ' ' || s[i] == '\t'
    ensures k < |s| ==> s[k] != ' ' && s[k] != '\t'
  {
    k := 0;
    if s != [] && Blank(s[0]) {
      k := DropBlanksTells(s[1..]);
      k := k + 1;
    }
  }

  /** The value and, after a blank, the timestamp; a sample without one has timestamp 0. */
  function ReadValue(p: Printer, name: string, labels: seq<LabelPair>, s: string): Option<Line> {
    var k := IndexOf(s, ' ');
    match p.parse(s[..k])
    case None => None
    case Some(v) =>
      if k == |s| then Some(Sample(name, labels, v, 0))
      else
        match ReadInt(s[k + 1..])
        case None => None
        case Some(ts) => Some(Sample(name, labels, v, ts))
  }

  function ReadSample(p: Printer, s: string): Option<Line> {
    match ReadName(s)
    case None => None
    case Some((name, rest)) =>
      if " " <= rest then ReadValue(p, name, [], Strip(" ", rest))
      else if !("{" <= rest) then None
      else
        match ReadLabels(Strip("{", rest))
        case None => None
        case Some((labels, rest')) =>
          if " " <= rest' then ReadValue(p, name, labels, Strip(" ", rest')) else None
  }

  function ReadHelp(s: string): Option<Line> {
    match ReadName(s)
    case None => None
    case Some((name, rest)) =>
      match Unescape(DropBlanks(rest))
      case None => None
      case Some(help) => Some(HelpLine(name, help))
  }

  function ReadTypeLine(s: string): Option<Line> {
    match ReadName(s)
    case None => None
    case Some((name, rest)) =>
      if !(" " <= rest) then None
      else
        match ReadType(Strip(" ", rest))
        case None => None
        case Some(t) => Some(TypeLine(name, t))
  }

  function ReadLine(p: Printer, s: string): Option<Line> {
    if "# HELP " <= s then ReadHelp(Strip("# HELP ", s))
    else if "# TYPE " <= s then ReadTypeLine(Strip("# TYPE ", s))
    else ReadSample(p, s)
  }

  // ---- Texts ----------------------------------------------------------------------------------------------

  function Render(p: Printer, ls: seq<Line>): string {
    if ls == [] then "" else Render(p, ls[..|ls| - 1]) + (ShowLine(p, ls[|ls| - 1]) + "\n")
  }

  /** The lines of a text whose every line ends with a newline. */
  function SplitLines(s: string): (r: Option<seq<string>>)
    decreases |s|
  {
    if s == [] then Some([])
    else
      var k := IndexOf(s, '\n');
      if k == |s| then None
      else
        match SplitLines(s[k + 1..])
        case None => None
        case Some(more) => Some([s[..k]] + more)
  }

  function ReadAll(p: Printer, ss: seq<string>): Option<seq<Line>> {
    if ss == [] then Some([])
    else
      match ReadLine(p, ss[0])
      case None => None
      case Some(l) =>
        match ReadAll(p, ss[1..])
        case None => None
        case Some(ls) => Some([l] + ls)
  }

  /** A text of the format, line by line. */
  function ReadText(p: Printer, s: string): Option<seq<Line>> {
    match SplitLines(s)
    case None => None
    case Some(ss) => ReadAll(p, ss)
  }

  // ---- Every line reads back ------------------------------------------------------------------------------

  /** What of a line its text holds: blanks and tabs before a help text are lost. */
  function Plain(l: Line): Line {
    match l
    case HelpLine(name, help) => HelpLine(name, DropBlanks(help))
    case _ => l
  }

  ghost predicate GoodLine(p: Printer, l: Line) {
    && ValidName(l.name)
    && (l.Sample? ==> ValidLabels(l.labels) && Printable(p, l.value))
  }

  lemma ReadLabelShow(l: LabelPair, tail: string)
    requires ValidName(l.name)
    ensures ReadLabel(ShowLabel(l) + tail) == Some((l, tail))
  {
    var quoted := Escape(l.value, true) + "\"" + tail;
    assert ShowLabel(l) + tail == l.name + ("=\"" + quoted);
    ReadNameBefore(l.name, "=\"" + quoted);
    StripPrefix("=\"", quoted);
    ReadQuotedEscape(l.value, tail);
  }

  lemma ReadLabelsLast(text: string, l: LabelPair, rest: string)
    requires ReadLabel(text) == Some((l, "}" + rest))
    ensures ReadLabels(text) == Some(([l], rest))
  {
    StripPrefix("}", rest);
  }

  lemma ReadLabelsMore(text: string, l: LabelPair, tail: string, more: seq<LabelPair>, rest: string)
    requires "," <= tail && ReadLabel(text) == Some((l, tail)) && ReadLabels(Strip(",", tail)) == Some((more, rest))
    ensures ReadLabels(text) == Some(([l] + more, rest))
  {
    assert tail[0] == ',';
  }

  lemma {:induction false} ReadLabelsShow(sep: string, labels: seq<LabelPair>, rest: string)
    requires labels != [] && ValidLabels(labels)
    ensures sep <= ShowPairs(sep, labels) + ("}" + rest)
    ensures ReadLabels(Strip(sep, ShowPairs(sep, labels) + ("}" + rest))) == Some((labels, rest))
    decreases |labels|
  {
    var l, tail := labels[0], ShowPairs(",", labels[1..]) + ("}" + rest);
    var text := ShowLabel(l) + tail;
    PairsThen(sep, labels, "}" + rest);
    StripPrefix(sep, text);
    ReadLabelShow(l, tail);
    if |labels| == 1 {
      assert tail == "}" + rest;
      ReadLabelsLast(text, l, rest);
      assert labels == [l];
    } else {
      ReadLabelsShow(",", labels[1..], rest);
      ReadLabelsMore(text, l, tail, labels[1..], rest);
      assert labels == [l] + labels[1..];
    }
  }

  lemma PairsThen(sep: string, labels: seq<LabelPair>, rest: string)
    requires labels != []
    ensures ShowPairs(sep, labels) + rest == sep + (ShowLabel(labels[0]) + (ShowPairs(",", labels[1..]) + rest))
  {
    var a, b, c := sep, ShowLabel(labels[0]), ShowPairs(",", labels[1..]);
    Associate(a + b, c, rest);
    Associate(a, b, c + rest);
  }

  lemma ReadValueShow(p: Printer, name: string, labels: seq<LabelPair>, v: F64, ts: int)
    requires Printable(p, v)
    ensures ReadValue(p, name, labels, p.show(v) + if ts == 0 then "" else " " + ShowInt(ts))
         == Some(Sample(name, labels, v, ts))
  {
    var word, stamp := p.show(v), ShowInt(ts);
    if ts == 0 {
      assert word + "" == word && word[..|word|] == word;
      IndexOfFirst(word, ' ', "");
    } else {
      IntReads(ts);
      SplitFirst(word, ' ', stamp);
    }
  }

  /** A sample's text after its name and labels. */
  function ShowTail(p: Printer, v: F64, ts: int): string {
    p.show(v) + if ts == 0 then "" else " " + ShowInt(ts)
  }

  lemma ReadSampleTail(p: Printer, l: Line, tail: string)
    requires l.Sample? && GoodLine(p, l) && ReadValue(p, l.name, l.labels, tail) == Some(l)
    ensures ReadSample(p, l.name + (ShowLabels(l.labels) + (" " + tail))) == Some(l)
  {
    var rest := ShowLabels(l.labels) + (" " + tail);
    StripPrefix(" ", tail);
    if l.labels == [] {
      assert rest == " " + tail;
    } else {
      ReadLabelsShow("{", l.labels, " " + tail);
      Associate(ShowPairs("{", l.labels), "}", " " + tail);
      assert rest[0] == '{';
    }
    ReadNameBefore(l.name, rest);
  }

  lemma ReadSampleShow(p: Printer, l: Line)
    requires l.Sample? && GoodLine(p, l)
    ensures ReadSample(p, ShowLine(p, l)) == Some(l)
  {
    var tail := ShowTail(p, l.value, l.timestampMs);
    ReadValueShow(p, l.name, l.labels, l.value, l.timestampMs);
    ReadSampleTail(p, l, tail);
    var labels, stamp := ShowLabels(l.labels), if l.timestampMs == 0 then "" else " " + ShowInt(l.timestampMs);
    Associate(l.name + labels + " ", p.show(l.value), stamp);
    Associate(l.name + labels, " ", tail);
    Associate(l.name, labels, " " + tail);
  }

  lemma {:induction false} DropBlanksEscape(s: string)
    ensures DropBlanks(Escape(s, false)) == Escape(DropBlanks(s), false)
  {
    if s != [] {
      assert Escape(s, false)[0] == (if Special(s[0], false) then '\\' else s[0]);
      if Blank(s[0]) {
        assert Escape(s, false)[1..] == Escape(s[1..], false);
        DropBlanksEscape(s[1..]);
      }
    }
  }

  lemma ReadHelpShow(name: string, help: string)
    requires ValidName(name)
    ensures ReadHelp(name + (" " + Escape(help, false))) == Some(HelpLine(name, DropBlanks(help)))
  {
    var text := " " + Escape(help, false);
    ReadNameBefore(name, text);
    assert text[1..] == Escape(help, false);
    DropBlanksEscape(help);
    UnescapeEscape(DropBlanks(help), false);
  }

  lemma ReadTypeShow(name: string, t: MetricType)
    requires ValidName(name)
    ensures ReadTypeLine(name + (" " + TypeName(t))) == Some(TypeLine(name, t))
  {
    ReadNameBefore(name, " " + TypeName(t));
    StripPrefix(" ", TypeName(t));
    TypeReads(t);
  }

  lemma ReadLineShow(p: Printer, l: Line)
    requires GoodLine(p, l)
    ensures ReadLine(p, ShowLine(p, l)) == Some(Plain(l))
  {
    var s := ShowLine(p, l);
    match l
    case HelpLine(name, help) =>
      Associate(HELP + name, " ", Escape(help, false));
      Associate(HELP, name, " " + Escape(help, false));
      StripPrefix(HELP, name + (" " + Escape(help, false)));
      ReadHelpShow(name, help);
    case TypeLine(name, t) =>
      Associate(TYPE + name, " ", TypeName(t));
      Associate(TYPE, name, " " + TypeName(t));
      StripPrefix(TYPE, name + (" " + TypeName(t)));
      assert s[2] == 'T' && HELP[2] == 'H';
      ReadTypeShow(name, t);
    case Sample(name, labels, _, _) =>
      assert s[0] == name[0] && NameChar(name[0]) && HELP[0] == '#' && TYPE[0] == '#';
      ReadSampleShow(p, l);
  }

  // ---- Every text reads back ------------------------------------------------------------------------------

  lemma {:induction false} ShowPairsOneLine(sep: string, labels: seq<LabelPair>)
    requires '\n' !in sep && ValidLabels(labels)
    ensures '\n' !in ShowPairs(sep, labels)
    decreases |labels|
  {
    if labels != [] {
      NoNewline(labels[0].value, true);
      ShowPairsOneLine(",", labels[1..]);
    }
  }

  lemma ShowLineOneLine(p: Printer, l: Line)
    requires GoodLine(p, l)
    ensures '\n' !in ShowLine(p, l)
  {
    match l
    case HelpLine(_, help) => NoNewline(help, false);
    case TypeLine(_, t) => TypeReads(t);
    case Sample(_, labels, _, ts) =>
      ShowPairsOneLine("{", labels);
      IntReads(ts);
  }

  function Prepend<T>(xs: seq<T>, r: Option<seq<T>>): Option<seq<T>> {
    match r
    case None => None
    case Some(ys) => Some(xs + ys)
  }

  lemma PrependTwice<T>(xs: seq<T>, x: T, r: Option<seq<T>>)
    ensures Prepend(xs, Prepend([x], r)) == Prepend(xs + [x], r)
  {
    if r.Some? {
      Associate(xs, [x], r.value);
    }
  }

  lemma PrependNone<T>(r: Option<seq<T>>)
    ensures Prepend([], r) == r
  {
    assert r.Some? ==> [] + r.value == r.value;
  }

  lemma ReadTextFirst(p: Printer, l: Line, rest: string)
    requires GoodLine(p, l)
    ensures ReadText(p, ShowLine(p, l) + "\n" + rest) == Prepend([Plain(l)], ReadText(p, rest))
  {
    var word := ShowLine(p, l);
    var s := word + "\n" + rest;
    ShowLineOneLine(p, l);
    ReadLineShow(p, l);
    Associate(word, "\n", rest);
    SplitFirst(word, '\n', rest);
    match SplitLines(rest)
    case None =>
    case Some(ss) => assert ([word] + ss)[1..] == ss;
  }

  function PlainLines(ls: seq<Line>): (r: seq<Line>)
    ensures |r| == |ls| && forall i :: 0 <= i < |ls| ==> r[i] == Plain(ls[i])
  {
    seq(|ls|, i requires 0 <= i < |ls| => Plain(ls[i]))
  }

  lemma PlainLinesNext(ls: seq<Line>)
    ensures ls == [] ==> PlainLines(ls) == []
    ensures ls != [] ==> PlainLines(ls) == PlainLines(ls[..|ls| - 1]) + [Plain(ls[|ls| - 1])]
  {
  }

  lemma {:induction false} ReadTextBefore(p: Printer, ls: seq<Line>, rest: string)
    requires forall i :: 0 <= i < |ls| ==> GoodLine(p, ls[i])
    ensures ReadText(p, Render(p, ls) + rest) == Prepend(PlainLines(ls), ReadText(p, rest))
    decreases |ls|
  {
    if ls == [] {
      assert Render(p, ls) + rest == rest;
      PlainLinesNext(ls);
      PrependNone(ReadText(p, rest));
    } else {
      var front, last := ls[..|ls| - 1], ls[|ls| - 1];
      var end := ShowLine(p, last) + "\n";
      Associate(Render(p, front), end, rest);
      ReadTextBefore(p, front, end + rest);
      ReadTextFirst(p, last, rest);
      PrependTwice(PlainLines(front), Plain(last), ReadText(p, rest));
      PlainLinesNext(ls);
    }
  }

  /** Printing lines and reading the text gives the lines, but for blanks and tabs before help texts. */
  lemma TextRoundTrip(p: Printer, ls: seq<Line>)
    requires forall i :: 0 <= i < |ls| ==> GoodLine(p, ls[i])
    ensures ReadText(p, Render(p, ls)) == Some(PlainLines(ls))
  {
    ReadTextBefore(p, ls, []);
    Associate(Render(p, ls), [], []);
    Associate(PlainLines(ls), [], []);
  }
}
