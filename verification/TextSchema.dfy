/**
 The printed text against the exposition format, word by word, with nothing taken from how it is printed
 or read.
 */
module TextSchema {
  import opened Sequences
  import opened Floats
  import opened Model
  import opened Escaping
  import opened TextLines
  import opened TextFamilies
  import opened TextEncoder
  import opened Encoding

  // ---- Timestamps -----------------------------------------------------------------------------------------

  function Power10(k: nat): nat {
    if k == 0 then 1 else 10 * Power10(k - 1)
  }

  /** What decimal digits stand for, the first one weighing most. */
  function Decimal(s: string): int {
    if s == [] then 0 else (s[0] as int - '0' as int) * Power10(|s| - 1) + Decimal(s[1..])
  }

  lemma {:induction false} DecimalNext(s: string, c: char)
    ensures Decimal(s + [c]) == 10 * Decimal(s) + (c as int - '0' as int)
  {
    if s == [] {
      assert s + [c] == [c] && [c][1..] == [];
      assert Decimal([c]) == (c as int - '0' as int) * Power10(0) + Decimal([]);
    } else {
      assert (s + [c])[1..] == s[1..] + [c];
      DecimalNext(s[1..], c);
      assert Power10(|s|) == 10 * Power10(|s| - 1);
    }
  }

  /** Numbers are printed in decimal, without zeros in front. */
  lemma {:induction false} DecimalTells(n: nat)
    ensures Decimal(ShowNat(n)) == n && ShowNat(n) != []
    ensures forall i :: 0 <= i < |ShowNat(n)| ==> '0' <= ShowNat(n)[i] <= '9'
    ensures n > 0 ==> ShowNat(n)[0] != '0'
  {
    if n >= 10 {
      DecimalTells(n / 10);
      DecimalNext(ShowNat(n / 10), (n % 10) as char + '0');
    } else {
      assert [n as char + '0'][1..] == [];
      assert Decimal([n as char + '0']) == n * Power10(0) + Decimal([]);
    }
  }

  // ---- Samples --------------------------------------------------------------------------------------------

  /** Words with commas between them. */
  function Commas(words: seq<string>): string {
    if words == [] then "" else if |words| == 1 then words[0] else words[0] + "," + Commas(words[1..])
  }

  function Pairs(labels: seq<LabelPair>): (words: seq<string>)
    ensures |words| == |labels|
    ensures forall i :: 0 <= i < |labels| ==> words[i] == labels[i].name + "=\"" + Escape(labels[i].value, true) + "\""
  {
    seq(|labels|, i requires 0 <= i < |labels| => labels[i].name + "=\"" + Escape(labels[i].value, true) + "\"")
  }

  lemma {:induction false} PairsAre(sep: string, labels: seq<LabelPair>)
    requires labels != []
    ensures ShowPairs(sep, labels) == sep + Commas(Pairs(labels))
    decreases |labels|
  {
    var word := Pairs(labels)[0];
    if |labels| == 1 {
      Associate(sep, word, "");
    } else {
      assert Pairs(labels)[1..] == Pairs(labels[1..]);
      PairsAre(",", labels[1..]);
      Associate(sep, word, "," + Commas(Pairs(labels[1..])));
      Associate(word, ",", Commas(Pairs(labels[1..])));
    }
  }

  /** Braces only around labels, a timestamp only if it is not zero. */
  lemma SampleTextIs(p: Printer, name: string, labels: seq<LabelPair>, v: F64, ts: int)
    ensures var text := ShowLine(p, Sample(name, labels, v, ts));
            && (labels == [] && ts == 0 ==> text == name + " " + p.show(v))
            && (labels == [] && ts != 0 ==> text == name + " " + p.show(v) + (" " + ShowInt(ts)))
            && (labels != [] && ts == 0 ==> text == name + ("{" + Commas(Pairs(labels)) + "}") + " " + p.show(v))
            && (labels != [] && ts != 0 ==>
                  text == name + ("{" + Commas(Pairs(labels)) + "}") + " " + p.show(v) + (" " + ShowInt(ts)))
  {
    if labels != [] {
      PairsAre("{", labels);
    } else {
      Associate(name, "", "");
    }
    if ts == 0 {
      Associate(name + ShowLabels(labels) + " " + p.show(v), "", "");
    }
  }

  // ---- Families -------------------------------------------------------------------------------------------

  function TypeWord(t: MetricType): string {
    match t
    case COUNTER => "counter"
    case GAUGE => "gauge"
    case SUMMARY => "summary"
    case UNTYPED => "untyped"
    case HISTOGRAM => "histogram"
  }

  /** A help line only if there is a help text; always a type line. */
  function HeaderText(mf: MetricFamily): string {
    (if mf.help == "" then "" else "# HELP " + mf.name + " " + Escape(mf.help, false) + "\n")
    + ("# TYPE " + mf.name + " " + TypeWord(mf.fieldType) + "\n")
  }

  lemma {:induction false} RenderConcat(p: Printer, a: seq<Line>, b: seq<Line>)
    ensures Render(p, a + b) == Render(p, a) + Render(p, b)
  {
    if b == [] {
      Associate(a, [], []);
      Associate(Render(p, a), "", "");
    } else {
      var front, last := b[..|b| - 1], b[|b| - 1];
      assert a + b == a + front + [last];
      RenderConcat(p, a, front);
      RenderNext(p, a + front, last);
      Associate(Render(p, a), Render(p, front), ShowLine(p, last) + "\n");
    }
  }

  lemma RenderOne(p: Printer, l: Line)
    ensures Render(p, [l]) == ShowLine(p, l) + "\n" && Render(p, []) == ""
  {
    assert [] + [l] == [l];
    RenderNext(p, [], l);
    Associate("", ShowLine(p, l), "\n");
  }

  lemma HeaderTextIs(p: Printer, mf: MetricFamily)
    ensures Render(p, HeaderLines(mf)) == HeaderText(mf)
  {
    RenderConcat(p, HelpLines(mf), [TypeLine(mf.name, mf.fieldType)]);
    RenderOne(p, TypeLine(mf.name, mf.fieldType));
    RenderOne(p, HelpLine(mf.name, mf.help));
  }

  /** What can be encoded. */
  predicate Encodable(mf: MetricFamily) {
    mf.metric != [] && mf.name != "" && !mf.fieldType.UNTYPED?
  }

  /**
   An encoding holds all families before the first that cannot be encoded; of that one it holds the header if
   only the type is at fault, and otherwise nothing.
   */
  lemma EncodedTextIs(p: Printer, mfs: seq<MetricFamily>) returns (k: nat)
    ensures k <= |mfs| && forall i :: 0 <= i < k ==> Encodable(mfs[i])
    ensures k == |mfs| ==> Render(p, AllWritten(p, mfs)) == Render(p, Lines(p, mfs))
    ensures k < |mfs| ==>
              && !Encodable(mfs[k])
              && Render(p, AllWritten(p, mfs))
                 == Render(p, Lines(p, mfs[..k]))
                    + if mfs[k].metric == [] || mfs[k].name == "" then "" else HeaderText(mfs[k])
  {
    k := Accepted(Check, mfs);
    AllWrittenAt(p, mfs, k);
    if k < |mfs| {
      RenderConcat(p, Lines(p, mfs[..k]), Written(p, mfs[k]));
      HeaderTextIs(p, mfs[k]);
      WrittenTextIs(p, mfs[k], HeaderText(mfs[k]));
      EncodableIff(mfs[k]);
    } else {
      assert mfs[..k] == mfs;
    }
    forall i | 0 <= i < k ensures Encodable(mfs[i]) {
      EncodableIff(mfs[i]);
    }
  }

  lemma EncodableIff(mf: MetricFamily)
    ensures Check(mf).Ok? <==> Encodable(mf)
  {
  }

  lemma WrittenIs(p: Printer, mf: MetricFamily)
    requires Check(mf).Err?
    ensures Written(p, mf) == if mf.metric == [] || mf.name == "" then [] else HeaderLines(mf)
  {
  }

  lemma WrittenTextIs(p: Printer, mf: MetricFamily, header: string)
    requires Check(mf).Err? && Render(p, HeaderLines(mf)) == header
    ensures Render(p, Written(p, mf)) == if mf.metric == [] || mf.name == "" then "" else header
  {
    WrittenIs(p, mf);
    RenderNothing(p);
  }

  lemma RenderNothing(p: Printer)
    ensures Render(p, []) == ""
  {
  }

  /** A family's text: its header, and then its metrics one after another. */
  lemma FamilyTextIs(p: Printer, mfs: seq<MetricFamily>, mf: MetricFamily)
    ensures Render(p, Lines(p, mfs + [mf]))
         == Render(p, Lines(p, mfs)) + (HeaderText(mf) + Render(p, MetricLines(p, mf.name, mf.fieldType, mf.metric)))
  {
    assert (mfs + [mf])[..|mfs|] == mfs;
    RenderConcat(p, Lines(p, mfs), FamilyLines(p, mf));
    RenderConcat(p, HeaderLines(mf), MetricLines(p, mf.name, mf.fieldType, mf.metric));
    HeaderTextIs(p, mf);
  }
}
