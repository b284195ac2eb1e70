/**
 Descriptors: which names are accepted, and the bytes that a descriptor's two hashes are taken of.  The hash
 function itself is a parameter.
 */
module Descriptors {
  import opened Integers
  import opened Wrappers
  import opened Sequences
  import opened Utf8
  import opened Order
  import opened Model
  import opened TextLines

  // ---- Names ----------------------------------------------------------------------------------------------

  predicate Letter(c: char, colon: bool) {
    'a' <= c <= 'z' || 'A' <= c <= 'Z' || c == '_' || (colon && c == ':')
  }

  predicate IsValidIdent(s: string, colon: bool) {
    && s != ""
    && Letter(s[0], colon)
    && forall i :: 1 <= i < |s| ==> Letter(s[i], colon) || '0' <= s[i] <= '9'
  }

  predicate IsValidMetricName(s: string) {
    IsValidIdent(s, true)
  }

  predicate IsValidLabelName(s: string) {
    IsValidIdent(s, false)
  }

  /** On characters: letters, underscore and, in metric names, the colon; digits not in front. */
  lemma NamesTell(s: string)
    ensures IsValidMetricName(s) <==>
              && s != "" && !('0' <= s[0] <= '9')
              && forall i :: 0 <= i < |s| ==>
                   'a' <= s[i] <= 'z' || 'A' <= s[i] <= 'Z' || '0' <= s[i] <= '9' || s[i] == '_' || s[i] == ':'
    ensures IsValidLabelName(s) <==> IsValidMetricName(s) && ':' !in s
  {
    if s != "" && IsValidMetricName(s) && ':' !in s {
      assert forall i :: 0 <= i < |s| ==> s[i] in s;
    }
  }

  /** Accepted names can be printed and read in the text format. */
  lemma AcceptedNamesPrintable(s: string)
    requires IsValidMetricName(s) || IsValidLabelName(s)
    ensures ValidName(s)
  {
    NamesTell(s);
  }

  // ---- Canonical order ------------------------------------------------------------------------------------

  /** The strings of a set in their order. */
  ghost function Sorted(s: set<string>): (r: seq<string>)
    ensures StrictlySorted(r) && forall x :: x in r <==> x in s
  {
    if s == {} then []
    else
      var x :| x in s;
      Insert(Sorted(s - {x}), x)
  }

  lemma SortedIs(r: seq<string>, s: set<string>)
    requires StrictlySorted(r) && forall x :: x in r <==> x in s
    ensures r == Sorted(s)
  {
    SortedUnique(r, Sorted(s));
  }

  ghost function ValuesOf(names: seq<string>, labels: map<string, string>): (vs: seq<string>)
    requires forall x :: x in names ==> x in labels
    ensures |vs| == |names| && forall i :: 0 <= i < |names| ==> vs[i] == labels[names[i]]
  {
    seq(|names|, i requires 0 <= i < |names| => assert names[i] in names; labels[names[i]])
  }

  /** The values of the constant labels in the order of their names. */
  ghost function ConstValues(labels: map<string, string>): seq<string> {
    ValuesOf(Sorted(labels.Keys), labels)
  }

  /** A variable label's name, marked with a character no label name has. */
  function Marked(name: string): string {
    ['$'] + name
  }

  ghost function MarkedNames(variable: seq<string>): set<string> {
    set i | 0 <= i < |variable| :: Marked(variable[i])
  }

  ghost function DimNames(names: set<string>, variable: seq<string>): seq<string> {
    Sorted(names + MarkedNames(variable))
  }

  // ---- Bytes that are hashed ------------------------------------------------------------------------------

  const SEPARATOR_BYTE: byte := 0xFF

  /** Every string, followed by the separator. */
  function Terminated(ss: seq<string>): seq<byte> {
    if ss == [] then [] else Encode(ss[0]) + ([SEPARATOR_BYTE] + Terminated(ss[1..]))
  }

  ghost function IdBytes(fqName: string, labels: map<string, string>): seq<byte> {
    Terminated([fqName] + ConstValues(labels))
  }

  ghost function DimBytes(help: string, names: set<string>, variable: seq<string>): seq<byte> {
    Terminated([help] + DimNames(names, variable))
  }

  lemma {:induction false} TerminatedNext(ss: seq<string>, s: string)
    ensures Terminated(ss + [s]) == Terminated(ss) + Encode(s) + [SEPARATOR_BYTE]
  {
    var end := Encode(s) + [SEPARATOR_BYTE];
    if ss == [] {
      assert ss + [s] == [s] && [s][1..] == [];
    } else {
      assert (ss + [s])[1..] == ss[1..] + [s];
      TerminatedNext(ss[1..], s);
      var a, b, c := Encode(ss[0]), [SEPARATOR_BYTE], Terminated(ss[1..]);
      Associate(c, Encode(s), [SEPARATOR_BYTE]);
      Associate(b, c, end);
      Associate(a, b + c, end);
      Associate(a + (b + c), Encode(s), [SEPARATOR_BYTE]);
    }
  }

  /** The name's bytes and a separator, and then as much for every value, in the order of the names. */
  lemma IdBytesAre(fqName: string, labels: map<string, string>) returns (names: seq<string>, values: seq<string>)
    ensures Increasing(names) && forall x :: x in names <==> x in labels
    ensures |values| == |names| && forall i :: 0 <= i < |names| ==> names[i] in labels && values[i] == labels[names[i]]
    ensures IdBytes(fqName, labels) == Encode(fqName) + ([0xFF] + Terminated(values))
    ensures forall v, vs :: Terminated([v] + vs) == Encode(v) + ([0xFF] + Terminated(vs))
    ensures Terminated([]) == []
  {
    names, values := Sorted(labels.Keys), ConstValues(labels);
    SortedIncreases(names);
    forall i | 0 <= i < |names| ensures names[i] in labels {
      assert names[i] in names;
    }
    TerminatedFirst(fqName, values);
    forall v, vs ensures Terminated([v] + vs) == Encode(v) + ([0xFF] + Terminated(vs)) {
      TerminatedFirst(v, vs);
    }
  }

  lemma TerminatedFirst(v: string, vs: seq<string>)
    ensures Terminated([v] + vs) == Encode(v) + ([0xFF] + Terminated(vs))
  {
    assert ([v] + vs)[1..] == vs;
  }

  /** Ascending, character by character. */
  ghost predicate Increasing(ss: seq<string>) {
    forall i, j :: 0 <= i < j < |ss| ==> Before(ss[i], ss[j])
  }

  lemma SortedIncreases(ss: seq<string>)
    requires StrictlySorted(ss)
    ensures Increasing(ss)
  {
    forall i, j | 0 <= i < j < |ss| ensures Before(ss[i], ss[j]) {
      StringsAscend(ss[i], ss[j]);
    }
  }

  /** The help text, and then all names in their order, the variable ones after a dollar sign. */
  lemma DimBytesAre(help: string, names: set<string>, variable: seq<string>) returns (all: seq<string>)
    ensures DimBytes(help, names, variable) == Encode(help) + ([0xFF] + Terminated(all)) && Increasing(all)
    ensures forall x :: x in all <==> x in names || (x != "" && x[0] == '$' && x[1..] in variable)
  {
    all := DimNames(names, variable);
    TerminatedFirst(help, all);
    SortedIncreases(all);
    forall x ensures x in MarkedNames(variable) <==> x != "" && x[0] == '$' && x[1..] in variable {
      if x in MarkedNames(variable) {
        var i :| 0 <= i < |variable| && Marked(variable[i]) == x;
        assert x[1..] == variable[i];
      }
      if x != "" && x[0] == '$' && x[1..] in variable {
        var i :| 0 <= i < |variable| && variable[i] == x[1..];
        assert Marked(variable[i]) == x;
      }
    }
  }

  /** The constant pairs of a descriptor are the labels, in the order of their names. */
  lemma ConstPairsAre(labels: map<string, string>)
    ensures var ps := ConstPairs(labels);
            && (forall i, j :: 0 <= i < j < |ps| ==> Before(ps[i].name, ps[j].name))
            && (forall name, value :: LabelPair(name, value) in ps <==> name in labels && labels[name] == value)
  {
    var ps, names := ConstPairs(labels), Sorted(labels.Keys);
    SortedIncreases(names);
    assert |ps| == |names| && forall i :: 0 <= i < |names| ==> ps[i].name == names[i];
    forall name, value ensures LabelPair(name, value) in ps <==> name in labels && labels[name] == value {
      if LabelPair(name, value) in ps {
        var i :| 0 <= i < |ps| && ps[i] == LabelPair(name, value);
        assert names[i] in names;
      }
      if name in labels && labels[name] == value {
        var i :| 0 <= i < |names| && names[i] == name;
        assert ps[i] == LabelPair(name, value);
      }
    }
  }

  /** The strings can be told from the bytes, because the separator occurs in no string. */
  lemma {:induction false} TerminatedInjective(a: seq<string>, b: seq<string>)
    requires Terminated(a) == Terminated(b)
    ensures a == b
    decreases |a|
  {
    if a != [] && b != [] {
      NoSeparator(a[0]);
      NoSeparator(b[0]);
      SplitFirst(Encode(a[0]), SEPARATOR_BYTE, Terminated(a[1..]));
      SplitFirst(Encode(b[0]), SEPARATOR_BYTE, Terminated(b[1..]));
      Injective(a[0], b[0]);
      TerminatedInjective(a[1..], b[1..]);
      assert a == [a[0]] + a[1..] && b == [b[0]] + b[1..];
    }
  }

  // ---- Descriptors ----------------------------------------------------------------------------------------

  datatype Descriptor = Descriptor(
    fqName: string,
    help: string,
    constLabelPairs: seq<LabelPair>,
    variableLabels: seq<string>,
    id: u64,
    dimHash: u64)

  datatype DescError = EmptyHelp | InvalidName(name: string) | InvalidLabel(name: string) | DuplicateLabel(name: string)

  predicate NoRepeats(ss: seq<string>) {
    forall i, j :: 0 <= i < j < |ss| ==> ss[i] != ss[j]
  }

  predicate Repeated(ss: seq<string>, s: string) {
    exists i, j :: 0 <= i < j < |ss| && ss[i] == ss[j] == s
  }

  predicate ValidLabelNames(labels: map<string, string>, variable: seq<string>) {
    && (forall x <- labels :: IsValidLabelName(x))
    && (forall i :: 0 <= i < |variable| ==> IsValidLabelName(variable[i]))
  }

  /** What is accepted.  A name may be both a constant and a variable label. */
  predicate Accepts(fqName: string, help: string, variable: seq<string>, labels: map<string, string>) {
    help != "" && IsValidMetricName(fqName) && ValidLabelNames(labels, variable) && NoRepeats(variable)
  }

  /** A hasher, as the bytes it has been fed; `fnv` is the function that it computes of them. */
  class Hasher {
    var fed: seq<byte>

    constructor ()
      ensures fed == []
    {
      fed := [];
    }

    method Write(s: string)
      modifies this
      ensures fed == old(fed) + Encode(s)
    {
      fed := fed + Encode(s);
    }

    method WriteU8(b: byte)
      modifies this
      ensures fed == old(fed) + [b]
    {
      fed := fed + [b];
    }

    method Finish(fnv: seq<byte> -> u64) returns (h: u64)
      ensures h == fnv(fed)
    {
      h := fnv(fed);
    }
  }

  method HashStrings(ss: seq<string>, fnv: seq<byte> -> u64) returns (h: u64)
    ensures h == fnv(Terminated(ss))
  {
    var hasher := new Hasher();
    for i := 0 to |ss|
      invariant hasher.fed == Terminated(ss[..i])
    {
      assert ss[..i + 1] == ss[..i] + [ss[i]];
      TerminatedNext(ss[..i], ss[i]);
      hasher.Write(ss[i]);
      hasher.WriteU8(SEPARATOR_BYTE);
    }
    assert ss[..|ss|] == ss;
    h := hasher.Finish(fnv);
  }

  // ---- The loops of the constructor -----------------------------------------------------------------------

  /** Walks the constant labels in whatever order the map yields them. */
  method ConstNames(labels: map<string, string>) returns (r: Result<seq<string>, DescError>)
    ensures r.Ok? <==> forall x <- labels :: IsValidLabelName(x)
    ensures r.Ok? ==> r.value == Sorted(labels.Keys)
    ensures r.Err? ==> r.error.InvalidLabel? && r.error.name in labels && !IsValidLabelName(r.error.name)
  {
    var names: seq<string> := [];
    var left := labels.Keys;
    while left != {}
      invariant StrictlySorted(names) && left <= labels.Keys
      invariant forall x :: x in names <==> x in labels && x !in left
      invariant forall x <- labels :: x !in left ==> IsValidLabelName(x)
    {
      var name :| name in left;
      if !IsValidLabelName(name) {
        return Err(InvalidLabel(name));
      }
      names := Insert(names, name);
      left := left - {name};
    }
    SortedIs(names, labels.Keys);
    r := Ok(names);
  }

  /** Adds the marked variable names to the sorted constant ones. */
  method AddVariableNames(variable: seq<string>, constNames: seq<string>) returns (r: Result<seq<string>, DescError>)
    requires StrictlySorted(constNames) && forall x :: x in constNames ==> IsValidLabelName(x)
    ensures r.Ok? <==> NoRepeats(variable) && forall i :: 0 <= i < |variable| ==> IsValidLabelName(variable[i])
    ensures r.Ok? ==> r.value == DimNames((set x | x in constNames), variable)
    ensures r.Err? ==>
              || (r.error.InvalidLabel? && r.error.name in variable && !IsValidLabelName(r.error.name))
              || (r.error.DuplicateLabel? && Repeated(variable, r.error.name))
  {
    var names := constNames;
    for i := 0 to |variable|
      invariant StrictlySorted(names)
      invariant forall x :: x in names <==> x in constNames || x in MarkedNames(variable[..i])
      invariant NoRepeats(variable[..i]) && forall j :: 0 <= j < i ==> IsValidLabelName(variable[j])
    {
      var name := variable[i];
      if !IsValidLabelName(name) {
        return Err(InvalidLabel(name));
      }
      MarkedNext(variable, i);
      var grown := Insert(names, Marked(name));
      if |grown| == |names| {
        assert Marked(name) !in constNames;
        var j :| 0 <= j < i && Marked(variable[..i][j]) == Marked(name);
        assert Marked(name)[1..] == name && Marked(variable[j])[1..] == variable[j];
        return Err(DuplicateLabel(name));
      }
      names := grown;
    }
    assert variable[..|variable|] == variable;
    SortedIs(names, (set x | x in constNames) + MarkedNames(variable));
    r := Ok(names);
  }

  lemma MarkedNext(variable: seq<string>, i: nat)
    requires i < |variable|
    ensures MarkedNames(variable[..i + 1]) == MarkedNames(variable[..i]) + {Marked(variable[i])}
    ensures Marked(variable[i]) !in MarkedNames(variable[..i]) ==> forall j :: 0 <= j < i ==> variable[j] != variable[i]
  {
    var before, after := variable[..i], variable[..i + 1];
    forall x ensures x in MarkedNames(after) <==> x in MarkedNames(before) || x == Marked(variable[i]) {
      if x in MarkedNames(after) {
        var j :| 0 <= j < |after| && Marked(after[j]) == x;
        assert j < i ==> before[j] == after[j];
      }
      if x in MarkedNames(before) {
        var j :| 0 <= j < |before| && Marked(before[j]) == x;
        assert after[j] == before[j];
      }
      assert after[i] == variable[i];
    }
    forall j | 0 <= j < i && Marked(variable[i]) !in MarkedNames(before) ensures variable[j] != variable[i] {
      assert Marked(before[j]) in MarkedNames(before);
    }
  }

  /** The constant labels, sorted by name. */
  ghost function ConstPairs(labels: map<string, string>): (ps: seq<LabelPair>) {
    PairsNamed(Sorted(labels.Keys), labels)
  }

  ghost function PairsNamed(names: seq<string>, labels: map<string, string>): (ps: seq<LabelPair>)
    requires forall x :: x in names ==> x in labels
  {
    seq(|names|, i requires 0 <= i < |names| => assert names[i] in names; LabelPair(names[i], labels[names[i]]))
  }

  /** Puts a pair behind those whose names are not greater. */
  function InsertPair(ps: seq<LabelPair>, p: LabelPair): (r: seq<LabelPair>)
    ensures |r| == |ps| + 1
  {
    if ps == [] || !CompareStrings(ps[|ps| - 1].name, p.name).Greater? then ps + [p]
    else InsertPair(ps[..|ps| - 1], p) + [ps[|ps| - 1]]
  }

  function SortPairs(ps: seq<LabelPair>): (r: seq<LabelPair>)
    ensures |r| == |ps|
  {
    if ps == [] then [] else InsertPair(SortPairs(ps[..|ps| - 1]), ps[|ps| - 1])
  }

  function NamesOf(ps: seq<LabelPair>): (names: seq<string>)
    ensures |names| == |ps| && forall i :: 0 <= i < |ps| ==> names[i] == ps[i].name
  {
    seq(|ps|, i requires 0 <= i < |ps| => ps[i].name)
  }

  lemma {:induction false} InsertPairSorts(ps: seq<LabelPair>, p: LabelPair)
    requires StrictlySorted(NamesOf(ps)) && forall i :: 0 <= i < |ps| ==> ps[i].name != p.name
    ensures StrictlySorted(NamesOf(InsertPair(ps, p)))
    ensures forall q :: q in InsertPair(ps, p) <==> q in ps || q == p
  {
    var names := NamesOf(ps);
    if ps == [] {
    } else {
      var front, last := ps[..|ps| - 1], ps[|ps| - 1];
      assert NamesOf(front) == names[..|ps| - 1];
      assert forall q :: q in ps <==> q in front || q == last;
      StringsTotal(last.name, p.name);
      if CompareStrings(last.name, p.name).Less? {
        forall i | 0 <= i < |ps| ensures CompareStrings(names[i], p.name).Less? {
          if i < |ps| - 1 {
            StringsTransitive(names[i], last.name, p.name);
          }
        }
      } else {
        InsertPairSorts(front, p);
        var r := InsertPair(front, p);
        forall i | 0 <= i < |r| ensures CompareStrings(r[i].name, last.name).Less? {
          assert r[i] in r;
          if r[i] != p {
            var j :| 0 <= j < |front| && front[j] == r[i];
            assert CompareStrings(names[j], names[|ps| - 1]).Less?;
          }
        }
      }
    }
  }

  lemma {:induction false} SortPairsSorts(ps: seq<LabelPair>)
    requires forall i, j :: 0 <= i < j < |ps| ==> ps[i].name != ps[j].name
    ensures StrictlySorted(NamesOf(SortPairs(ps)))
    ensures forall q :: q in SortPairs(ps) <==> q in ps
  {
    if ps != [] {
      var front, last := ps[..|ps| - 1], ps[|ps| - 1];
      SortPairsSorts(front);
      var r := SortPairs(front);
      NoneNamed(front, r, last.name);
      InsertPairSorts(r, last);
      InLast(ps);
    }
  }

  lemma NoneNamed(ps: seq<LabelPair>, r: seq<LabelPair>, name: string)
    requires forall i :: 0 <= i < |ps| ==> ps[i].name != name
    requires forall q :: q in r <==> q in ps
    ensures forall i :: 0 <= i < |r| ==> r[i].name != name
  {
    forall i | 0 <= i < |r| ensures r[i].name != name {
      assert r[i] in r;
      var j :| 0 <= j < |ps| && ps[j] == r[i];
    }
  }

  lemma InLast<T>(s: seq<T>)
    requires s != []
    ensures forall x :: x in s <==> x in s[..|s| - 1] || x == s[|s| - 1]
  {
  }

  /** Pushes the pairs in whatever order the map yields them, then sorts. */
  method SortedPairs(labels: map<string, string>) returns (ps: seq<LabelPair>)
    ensures ps == ConstPairs(labels)
  {
    ps := [];
    var left := labels.Keys;
    while left != {}
      invariant left <= labels.Keys
      invariant forall i, j :: 0 <= i < j < |ps| ==> ps[i].name != ps[j].name
      invariant forall p :: p in ps <==> p.name in labels && p.name !in left && p.value == labels[p.name]
    {
      var name :| name in left;
      assert forall i :: 0 <= i < |ps| ==> ps[i] in ps;
      ps := ps + [LabelPair(name, labels[name])];
      left := left - {name};
    }
    SortPairsSorts(ps);
    var pushed := ps;
    ps := SortPairs(ps);
    PairsAre(ps, labels);
  }

  lemma PairsAre(ps: seq<LabelPair>, labels: map<string, string>)
    requires StrictlySorted(NamesOf(ps))
    requires forall p :: p in ps <==> p.name in labels && p.value == labels[p.name]
    ensures ps == ConstPairs(labels)
  {
    var names := NamesOf(ps);
    forall x ensures x in names <==> x in labels {
      if x in names {
        var i :| 0 <= i < |names| && names[i] == x;
        assert ps[i] in ps;
      }
      if x in labels {
        assert LabelPair(x, labels[x]) in ps;
        var i :| 0 <= i < |ps| && ps[i] == LabelPair(x, labels[x]);
        assert names[i] == x;
      }
    }
    SortedIs(names, labels.Keys);
    forall i | 0 <= i < |ps| ensures ps[i] == ConstPairs(labels)[i] {
      assert ps[i] in ps;
    }
  }

  /** The name, then the values of these labels. */
  method LabelValues(fqName: string, names: seq<string>, labels: map<string, string>) returns (values: seq<string>)
    requires forall x :: x in names ==> x in labels
    ensures values == [fqName] + ValuesOf(names, labels)
  {
    values := [fqName];
    for i := 0 to |names|
      invariant |values| == i + 1 && values[0] == fqName
      invariant forall j :: 0 <= j < i ==> values[j + 1] == ValuesOf(names, labels)[j]
    {
      assert names[i] in names;
      values := values + [labels[names[i]]];
    }
  }

  // ---- The constructor ------------------------------------------------------------------------------------

  method NewDesc(fqName: string, help: string, variableLabels: seq<string>, constLabels: map<string, string>,
                 fnv: seq<byte> -> u64)
    returns (r: Result<Descriptor, DescError>)
    ensures r.Ok? <==> Accepts(fqName, help, variableLabels, constLabels)
    ensures r.Ok? ==> r.value == Descriptor(fqName, help, ConstPairs(constLabels), variableLabels,
                                            fnv(IdBytes(fqName, constLabels)),
                                            fnv(DimBytes(help, constLabels.Keys, variableLabels)))
    ensures r.Err? ==>
              match r.error
              case EmptyHelp => help == ""
              case InvalidName(name) => help != "" && name == fqName && !IsValidMetricName(name)
              case InvalidLabel(name) => (name in constLabels || name in variableLabels) && !IsValidLabelName(name)
              case DuplicateLabel(name) => Repeated(variableLabels, name)
  {
    if help == "" {
      return Err(EmptyHelp);
    }
    if !IsValidMetricName(fqName) {
      return Err(InvalidName(fqName));
    }
    var constNames := ConstNames(constLabels);
    if constNames.Err? {
      return Err(constNames.error);
    }
    var labelNames := AddVariableNames(variableLabels, constNames.value);
    if labelNames.Err? {
      return Err(labelNames.error);
    }
    assert (set x | x in constNames.value) == constLabels.Keys;
    var desc := Describe(fqName, help, variableLabels, constLabels, constNames.value, labelNames.value, fnv);
    r := Ok(desc);
  }

  /** Both hashes and the sorted pairs. */
  method Describe(fqName: string, help: string, variableLabels: seq<string>, constLabels: map<string, string>,
                  constNames: seq<string>, labelNames: seq<string>, fnv: seq<byte> -> u64)
    returns (desc: Descriptor)
    requires constNames == Sorted(constLabels.Keys) && labelNames == DimNames(constLabels.Keys, variableLabels)
    ensures desc == Descriptor(fqName, help, ConstPairs(constLabels), variableLabels,
                               fnv(IdBytes(fqName, constLabels)),
                               fnv(DimBytes(help, constLabels.Keys, variableLabels)))
  {
    var labelValues := LabelValues(fqName, constNames, constLabels);
    var id := HashStrings(labelValues, fnv);
    var dimHash := HashStrings([help] + labelNames, fnv);
    var pairs := SortedPairs(constLabels);
    desc := Descriptor(fqName, help, pairs, variableLabels, id, dimHash);
  }

  // ---- What the hashed bytes tell -------------------------------------------------------------------------

  /** The bytes of the id tell the name and the constant values in the order of their names, and nothing more. */
  lemma IdBytesTell(name1: string, labels1: map<string, string>, name2: string, labels2: map<string, string>)
    ensures IdBytes(name1, labels1) == IdBytes(name2, labels2)
            <==> name1 == name2 && ConstValues(labels1) == ConstValues(labels2)
  {
    var a, b := [name1] + ConstValues(labels1), [name2] + ConstValues(labels2);
    if Terminated(a) == Terminated(b) {
      TerminatedInjective(a, b);
      assert a[0] == b[0] && a[1..] == b[1..];
    }
  }

  lemma MarkedApart(names: set<string>, variable: seq<string>, x: string)
    requires forall y <- names :: IsValidLabelName(y)
    ensures x in names <==> x in DimNames(names, variable) && (x == "" || x[0] != '$')
    ensures x in variable <==> Marked(x) in DimNames(names, variable)
  {
    assert Marked(x)[1..] == x;
    if x in variable {
      var i :| 0 <= i < |variable| && variable[i] == x;
      assert Marked(x) in MarkedNames(variable);
    }
    if Marked(x) in MarkedNames(variable) {
      var i :| 0 <= i < |variable| && Marked(variable[i]) == Marked(x);
      assert Marked(variable[i])[1..] == variable[i];
    }
  }

  /**
   The bytes of the dimension hash tell the help text, the names of the constant labels and those of the
   variable labels: a name that is a constant label here and a variable one there makes a difference.
   */
  lemma DimBytesTell(help1: string, names1: set<string>, variable1: seq<string>, help2: string, names2: set<string>,
                     variable2: seq<string>)
    requires forall x <- names1 + names2 :: IsValidLabelName(x)
    ensures DimBytes(help1, names1, variable1) == DimBytes(help2, names2, variable2)
            <==> help1 == help2 && names1 == names2 && forall x :: x in variable1 <==> x in variable2
  {
    var a, b := [help1] + DimNames(names1, variable1), [help2] + DimNames(names2, variable2);
    if Terminated(a) == Terminated(b) {
      TerminatedInjective(a, b);
      assert a[0] == b[0] && a[1..] == b[1..];
      forall x ensures (x in names1 <==> x in names2) && (x in variable1 <==> x in variable2) {
        MarkedApart(names1, variable1, x);
        MarkedApart(names2, variable2, x);
      }
    }
    if help1 == help2 && names1 == names2 && forall x :: x in variable1 <==> x in variable2 {
      assert MarkedNames(variable1) == MarkedNames(variable2) by {
        forall x ensures x in MarkedNames(variable1) <==> x in MarkedNames(variable2) {
          MarkedFrom(variable1, variable2, x);
          MarkedFrom(variable2, variable1, x);
        }
      }
    }
  }

  lemma MarkedFrom(a: seq<string>, b: seq<string>, x: string)
    requires forall y :: y in a ==> y in b
    ensures x in MarkedNames(a) ==> x in MarkedNames(b)
  {
    if x in MarkedNames(a) {
      var i :| 0 <= i < |a| && Marked(a[i]) == x;
      assert a[i] in b;
      var j :| 0 <= j < |b| && b[j] == a[i];
    }
  }
}
