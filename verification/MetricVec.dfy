/**
 Vectors of metrics: children under the hash of their label values.  The values are hashed one after another
 with nothing in between.
 */
module MetricVec {
  import opened Integers
  import opened Wrappers
  import opened Sequences
  import opened Utf8

  type Hash = seq<byte> -> u64

  /** The bytes of the values, run together. */
  function Fed(vals: seq<string>): seq<byte> {
    if vals == [] then [] else Fed(vals[..|vals| - 1]) + Encode(vals[|vals| - 1])
  }

  function HashOf(hash: Hash, vals: seq<string>): u64 {
    hash(Fed(vals))
  }

  datatype VecError = InconsistentCardinality(wanted: nat, got: nat) | LabelMissing(name: string) | NotBuilt | NoChild

  /** A vector: its children by hash, and what each child, numbered in the order of creation, was built with. */
  datatype State = State(children: map<u64, nat>, built: seq<seq<string>>)

  const EMPTY := State(map[], [])

  /** What does not change: the label names, the hash, and which values a child can be built with. */
  datatype Config = Config(names: seq<string>, hash: Hash, build: seq<string> -> bool)

  // ---- Operations on the state ----------------------------------------------------------------------------

  function GetOrCreate(c: Config, s: State, h: u64, vals: seq<string>): (State, Result<nat, VecError>) {
    if h in s.children then (s, Ok(s.children[h]))
    else if !c.build(vals) then (s, Err(NotBuilt))
    else (State(s.children[h := |s.built|], s.built + [vals]), Ok(|s.built|))
  }

  datatype Op = Get(vals: seq<string>) | Delete(vals: seq<string>) | Reset

  /** What an operation yields: a child, an error, or nothing. */
  datatype Answer = Child(child: nat) | Failed(error: VecError) | Done

  function Arity(c: Config, op: Op): Option<VecError> {
    if op.Reset? || |op.vals| == |c.names| then None
    else Some(InconsistentCardinality(|c.names|, |op.vals|))
  }

  function Step(c: Config, s: State, op: Op): (State, Answer) {
    if Arity(c, op).Some? then (s, Failed(Arity(c, op).value))
    else
      match op
      case Get(vals) =>
        var (s', r) := GetOrCreate(c, s, HashOf(c.hash, vals), vals);
        (s', if r.Ok? then Child(r.value) else Failed(r.error))
      case Delete(vals) =>
        var h := HashOf(c.hash, vals);
        if h in s.children then (s.(children := s.children - {h}), Done) else (s, Failed(NoChild))
      case Reset => (s.(children := map[]), Done)
  }

  /** What each operation does, value by value. */
  lemma StepTells(c: Config, s: State, vals: seq<string>)
    ensures var h := HashOf(c.hash, vals);
            && (|vals| != |c.names| ==>
                  forall op :: op in {Get(vals), Delete(vals)} ==>
                    Step(c, s, op) == (s, Failed(InconsistentCardinality(|c.names|, |vals|))))
            && (|vals| == |c.names| && h in s.children ==>
                  && Step(c, s, Get(vals)) == (s, Child(s.children[h]))
                  && Step(c, s, Delete(vals)).1 == Done
                  && (forall k :: k in Step(c, s, Delete(vals)).0.children <==> k in s.children && k != h))
            && (|vals| == |c.names| && h !in s.children ==>
                  && Step(c, s, Delete(vals)) == (s, Failed(NoChild))
                  && if c.build(vals) then
                       Step(c, s, Get(vals)) == (State(s.children[h := |s.built|], s.built + [vals]), Child(|s.built|))
                     else Step(c, s, Get(vals)) == (s, Failed(NotBuilt)))
    ensures Step(c, s, Reset) == (State(map[], s.built), Done)
  {
  }

  // ---- The vector as a map of label maps ------------------------------------------------------------------

  /** The values of a label map in the order of the names, or the first name that is missing. */
  function ValuesFor(names: seq<string>, labels: map<string, string>): Result<seq<string>, VecError> {
    if names == [] then Ok([])
    else
      match ValuesFor(names[..|names| - 1], labels)
      case Err(e) => Err(e)
      case Ok(vals) =>
        var name := names[|names| - 1];
        if name in labels then Ok(vals + [labels[name]]) else Err(LabelMissing(name))
  }

  lemma {:induction false} ValuesForLength(names: seq<string>, labels: map<string, string>)
    ensures ValuesFor(names, labels).Ok? ==> |ValuesFor(names, labels).value| == |names|
    ensures ValuesFor(names, labels).Ok? <==> forall i :: 0 <= i < |names| ==> names[i] in labels
    ensures ValuesFor(names, labels).Ok? ==>
              forall i :: 0 <= i < |names| ==> ValuesFor(names, labels).value[i] == labels[names[i]]
    ensures ValuesFor(names, labels).Err? ==> exists i: nat :: FirstMissing(names, labels, i, ValuesFor(names, labels).error)
  {
    if names != [] {
      var front, k := names[..|names| - 1], |names| - 1;
      ValuesForLength(front, labels);
      if ValuesFor(front, labels).Err? {
        var i: nat :| FirstMissing(front, labels, i, ValuesFor(front, labels).error);
        assert FirstMissing(names, labels, i, ValuesFor(names, labels).error);
      } else if names[k] !in labels {
        assert forall j :: 0 <= j < k ==> names[j] == front[j];
        assert FirstMissing(names, labels, k, ValuesFor(names, labels).error);
      }
    }
  }

  /** The error names the first name without a value. */
  predicate FirstMissing(names: seq<string>, labels: map<string, string>, i: nat, e: VecError) {
    i < |names| && names[i] !in labels && e == LabelMissing(names[i]) && forall j :: 0 <= j < i ==> names[j] in labels
  }

  /** Values of a prefix are the prefix of the values. */
  lemma {:induction false} ValuesForPrefix(names: seq<string>, labels: map<string, string>, i: nat)
    requires i < |names|
    ensures ValuesFor(names[..i + 1], labels)
         == match ValuesFor(names[..i], labels)
            case Err(e) => Err(e)
            case Ok(vals) => if names[i] in labels then Ok(vals + [labels[names[i]]]) else Err(LabelMissing(names[i]))
    ensures ValuesFor(names[..i], labels).Err? ==> ValuesFor(names, labels) == ValuesFor(names[..i], labels)
    decreases |names|
  {
    assert names[..i + 1][..i] == names[..i];
    var front := names[..|names| - 1];
    if i < |front| {
      assert front[..i] == names[..i] && front[..i + 1] == names[..i + 1];
      ValuesForPrefix(front, labels, i);
    } else {
      assert names[..i] == front;
    }
  }

  /** The answer to a label map: that to its values in the order of the names. */
  function Positional(c: Config, labels: map<string, string>): Result<seq<string>, VecError> {
    if |labels| != |c.names| then Err(InconsistentCardinality(|c.names|, |labels|)) else ValuesFor(c.names, labels)
  }

  /** A label map is taken exactly if it has as many entries as there are names, and every name. */
  lemma PositionalTells(c: Config, labels: map<string, string>)
    ensures Positional(c, labels).Ok? <==> |labels| == |c.names| && forall i :: 0 <= i < |c.names| ==> c.names[i] in labels
    ensures match Positional(c, labels)
            case Ok(vals) => |vals| == |c.names| && forall i :: 0 <= i < |vals| ==> vals[i] == labels[c.names[i]]
            case Err(e) =>
              if |labels| != |c.names| then e == InconsistentCardinality(|c.names|, |labels|)
              else exists i: nat :: FirstMissing(c.names, labels, i, e)
  {
    ValuesForLength(c.names, labels);
  }

  // ---- The object -----------------------------------------------------------------------------------------

  class MetricVecCore {
    const config: Config
    var children: map<u64, nat>
    var built: seq<seq<string>>

    function View(): State
      reads this
    {
      State(children, built)
    }

    constructor (config: Config)
      ensures this.config == config && View() == EMPTY
    {
      this.config := config;
      children, built := map[], [];
    }

    method HashLabelValues(vals: seq<string>) returns (r: Result<u64, VecError>)
      ensures r == if |vals| != |config.names| then Err(InconsistentCardinality(|config.names|, |vals|))
                   else Ok(HashOf(config.hash, vals))
    {
      if |vals| != |config.names| {
        return Err(InconsistentCardinality(|config.names|, |vals|));
      }
      var fed: seq<byte> := [];
      for i := 0 to |vals|
        invariant fed == Fed(vals[..i])
      {
        assert vals[..i + 1][..i] == vals[..i];
        fed := fed + Encode(vals[i]);
      }
      assert vals[..|vals|] == vals;
      r := Ok(config.hash(fed));
    }

    method HashLabels(labels: map<string, string>) returns (r: Result<u64, VecError>)
      ensures r == match Positional(config, labels) case Err(e) => Err(e) case Ok(vals) => Ok(HashOf(config.hash, vals))
    {
      if |labels| != |config.names| {
        return Err(InconsistentCardinality(|config.names|, |labels|));
      }
      var fed: seq<byte> := [];
      for i := 0 to |config.names|
        invariant ValuesFor(config.names[..i], labels).Ok?
        invariant fed == Fed(ValuesFor(config.names[..i], labels).value)
      {
        ValuesForPrefix(config.names, labels, i);
        var name := config.names[i];
        if name !in labels {
          assert ValuesFor(config.names[..i + 1], labels).Err?;
          if i + 1 < |config.names| {
            ValuesForPrefix(config.names, labels, i + 1);
          } else {
            assert config.names[..i + 1] == config.names;
          }
          return Err(LabelMissing(name));
        }
        ghost var vals := ValuesFor(config.names[..i], labels).value;
        assert (vals + [labels[name]])[..|vals|] == vals;
        fed := fed + Encode(labels[name]);
      }
      assert config.names[..|config.names|] == config.names;
      r := Ok(config.hash(fed));
    }

    method GetLabelValues(labels: map<string, string>) returns (r: Result<seq<string>, VecError>)
      ensures r == ValuesFor(config.names, labels)
    {
      var vals := [];
      for i := 0 to |config.names|
        invariant ValuesFor(config.names[..i], labels) == Ok(vals)
      {
        ValuesForPrefix(config.names, labels, i);
        var name := config.names[i];
        if name !in labels {
          if i + 1 < |config.names| {
            ValuesForPrefix(config.names, labels, i + 1);
          } else {
            assert config.names[..i + 1] == config.names;
          }
          return Err(LabelMissing(name));
        }
        vals := vals + [labels[name]];
      }
      assert config.names[..|config.names|] == config.names;
      r := Ok(vals);
    }

    /** Under the write lock: looks again before it creates. */
    method GetOrCreateMetric(h: u64, vals: seq<string>) returns (r: Result<nat, VecError>)
      modifies this
      ensures (View(), r) == GetOrCreate(config, old(View()), h, vals)
    {
      if h in children {
        return Ok(children[h]);
      }
      if !config.build(vals) {
        return Err(NotBuilt);
      }
      var child := |built|;
      built := built + [vals];
      children := children[h := child];
      r := Ok(child);
    }

    method GetMetricWithLabelValues(vals: seq<string>) returns (r: Result<nat, VecError>)
      modifies this
      ensures (View(), AnswerOf(r)) == Step(config, old(View()), Get(vals))
    {
      var h := HashLabelValues(vals);
      if h.Err? {
        return Err(h.error);
      }
      if h.value in children {
        return Ok(children[h.value]);
      }
      r := GetOrCreateMetric(h.value, vals);
    }

    /** The same child as for the values in the order of the names. */
    method GetMetricWith(labels: map<string, string>) returns (r: Result<nat, VecError>)
      modifies this
      ensures match Positional(config, labels)
              case Err(e) => r == Err(e) && View() == old(View())
              case Ok(vals) => (View(), AnswerOf(r)) == Step(config, old(View()), Get(vals))
    {
      ValuesForLength(config.names, labels);
      var h := HashLabels(labels);
      if h.Err? {
        return Err(h.error);
      }
      if h.value in children {
        return Ok(children[h.value]);
      }
      var vals := GetLabelValues(labels);
      r := GetOrCreateMetric(h.value, vals.value);
    }

    method DeleteLabelValues(vals: seq<string>) returns (r: Result<(), VecError>)
      modifies this
      ensures (View(), if r.Ok? then Done else Failed(r.error)) == Step(config, old(View()), Delete(vals))
    {
      var h := HashLabelValues(vals);
      if h.Err? {
        return Err(h.error);
      }
      if h.value !in children {
        return Err(NoChild);
      }
      children := children - {h.value};
      r := Ok(());
    }

    method DeleteLabels(labels: map<string, string>) returns (r: Result<(), VecError>)
      modifies this
      ensures match Positional(config, labels)
              case Err(e) => r == Err(e) && View() == old(View())
              case Ok(vals) => (View(), if r.Ok? then Done else Failed(r.error)) == Step(config, old(View()), Delete(vals))
    {
      ValuesForLength(config.names, labels);
      var h := HashLabels(labels);
      if h.Err? {
        return Err(h.error);
      }
      if h.value !in children {
        return Err(NoChild);
      }
      children := children - {h.value};
      r := Ok(());
    }

    method ResetAll()
      modifies this
      ensures View() == Step(config, old(View()), Reset).0
    {
      children := map[];
    }
  }

  function AnswerOf(r: Result<nat, VecError>): Answer {
    if r.Ok? then Child(r.value) else Failed(r.error)
  }

  // ---- The tuple-keyed map --------------------------------------------------------------------------------

  /** What a vector is meant to be: children by label values. */
  datatype Table = Table(children: map<seq<string>, nat>, built: seq<seq<string>>)

  const EMPTY_TABLE := Table(map[], [])

  function TableStep(c: Config, t: Table, op: Op): (Table, Answer) {
    if Arity(c, op).Some? then (t, Failed(Arity(c, op).value))
    else
      match op
      case Get(vals) =>
        if vals in t.children then (t, Child(t.children[vals]))
        else if !c.build(vals) then (t, Failed(NotBuilt))
        else (Table(t.children[vals := |t.built|], t.built + [vals]), Child(|t.built|))
      case Delete(vals) =>
        if vals in t.children then (t.(children := t.children - {vals}), Done) else (t, Failed(NoChild))
      case Reset => (t.(children := map[]), Done)
  }

  function Answers(c: Config, s: State, ops: seq<Op>): seq<Answer>
    decreases |ops|
  {
    if ops == [] then [] else [Step(c, s, ops[0]).1] + Answers(c, Step(c, s, ops[0]).0, ops[1..])
  }

  function TableAnswers(c: Config, t: Table, ops: seq<Op>): seq<Answer>
    decreases |ops|
  {
    if ops == [] then [] else [TableStep(c, t, ops[0]).1] + TableAnswers(c, TableStep(c, t, ops[0]).0, ops[1..])
  }

  /** Operations on these tuples only. */
  predicate Within(ops: seq<Op>, used: set<seq<string>>) {
    forall i :: 0 <= i < |ops| ==> ops[i].Reset? || ops[i].vals in used
  }

  predicate Apart(hash: Hash, used: set<seq<string>>) {
    forall a, b :: a in used && b in used && HashOf(hash, a) == HashOf(hash, b) ==> a == b
  }

  /** The vector holds the table's children, each under its hash. */
  ghost predicate Refines(c: Config, s: State, t: Table, used: set<seq<string>>) {
    && s.built == t.built
    && (forall vals :: vals in t.children ==> vals in used)
    && (forall vals :: vals in used ==>
          && (vals in t.children <==> HashOf(c.hash, vals) in s.children)
          && (vals in t.children ==> s.children[HashOf(c.hash, vals)] == t.children[vals]))
  }

  lemma StepRefines(c: Config, s: State, t: Table, used: set<seq<string>>, op: Op)
    requires Refines(c, s, t, used) && Apart(c.hash, used) && (op.Reset? || op.vals in used)
    ensures Refines(c, Step(c, s, op).0, TableStep(c, t, op).0, used)
    ensures Step(c, s, op).1 == TableStep(c, t, op).1
  {
  }

  lemma {:induction false} RunRefines(c: Config, s: State, t: Table, used: set<seq<string>>, ops: seq<Op>)
    requires Refines(c, s, t, used) && Apart(c.hash, used) && Within(ops, used)
    ensures Answers(c, s, ops) == TableAnswers(c, t, ops)
    decreases |ops|
  {
    if ops != [] {
      StepRefines(c, s, t, used, ops[0]);
      RunRefines(c, Step(c, s, ops[0]).0, TableStep(c, t, ops[0]).0, used, ops[1..]);
    }
  }

  lemma CollisionShows(c: Config, a: seq<string>, b: seq<string>)
    requires |a| == |b| == |c.names| && c.build(a) && c.build(b)
    requires a != b && HashOf(c.hash, a) == HashOf(c.hash, b)
    ensures Answers(c, EMPTY, [Get(a), Get(b)]) == [Child(0), Child(0)]
    ensures TableAnswers(c, EMPTY_TABLE, [Get(a), Get(b)]) == [Child(0), Child(1)]
  {
    var ops := [Get(a), Get(b)];
    assert ops[1..] == [Get(b)] && [Get(b)][1..] == [];
    var s, t := Step(c, EMPTY, Get(a)).0, TableStep(c, EMPTY_TABLE, Get(a)).0;
    assert Answers(c, s, [Get(b)]) == [Step(c, s, Get(b)).1] + [];
    assert TableAnswers(c, t, [Get(b)]) == [TableStep(c, t, Get(b)).1] + [];
  }

  predicate AgreesOn(c: Config, ops: seq<Op>) {
    Answers(c, EMPTY, ops) == TableAnswers(c, EMPTY_TABLE, ops)
  }

  /**
   A vector answers as a map from label values to children, whatever is done with the tuples in use, exactly
   when no two of them have the same hash.
   */
  lemma AgreesIffApart(c: Config, used: set<seq<string>>)
    requires forall vals :: vals in used ==> |vals| == |c.names| && c.build(vals)
    ensures Apart(c.hash, used) <==> forall ops :: Within(ops, used) ==> AgreesOn(c, ops)
  {
    if Apart(c.hash, used) {
      forall ops | Within(ops, used) ensures AgreesOn(c, ops) {
        RunRefines(c, EMPTY, EMPTY_TABLE, used, ops);
      }
    } else {
      var a, b :| a in used && b in used && HashOf(c.hash, a) == HashOf(c.hash, b) && a != b;
      CollisionShows(c, a, b);
      assert Within([Get(a), Get(b)], used) && !AgreesOn(c, [Get(a), Get(b)]);
    }
  }

  /** The characters of the values, with nothing to tell where one ends. */
  function RunTogether(vals: seq<string>): string {
    if vals == [] then [] else RunTogether(vals[..|vals| - 1]) + vals[|vals| - 1]
  }

  lemma {:induction false} FedIsEncoded(vals: seq<string>)
    ensures Fed(vals) == Encode(RunTogether(vals))
  {
    if vals != [] {
      FedIsEncoded(vals[..|vals| - 1]);
      EncodeConcat(RunTogether(vals[..|vals| - 1]), vals[|vals| - 1]);
    }
  }

  /** Two tuples are hashed from the same bytes exactly if their values run together are the same string. */
  lemma FedTells(a: seq<string>, b: seq<string>)
    ensures Fed(a) == Fed(b) <==> RunTogether(a) == RunTogether(b)
  {
    FedIsEncoded(a);
    FedIsEncoded(b);
    if Fed(a) == Fed(b) {
      Injective(RunTogether(a), RunTogether(b));
    }
  }

  /** No hash whatever tells two tuples apart exactly if their values run together are the same string. */
  lemma NoHashTellsIff(a: seq<string>, b: seq<string>)
    ensures (forall hash: Hash :: HashOf(hash, a) == HashOf(hash, b)) <==> RunTogether(a) == RunTogether(b)
  {
    FedTells(a, b);
    var hash: Hash := bs => if bs == Fed(a) then 0 else 1;
    assert HashOf(hash, a) == 0 && (Fed(b) != Fed(a) ==> HashOf(hash, b) == 1);
  }

  /** Whatever the hash is, moving characters between neighbouring values makes no difference to it. */
  lemma ShiftedCollide(hash: Hash, front: seq<string>, x: string, y: string, z: string)
    ensures HashOf(hash, front + [x + y, z]) == HashOf(hash, front + [x, y + z])
  {
    EncodeConcat(x, y);
    EncodeConcat(y, z);
    FedTwo(front, x + y, z);
    FedTwo(front, x, y + z);
    Associate(Fed(front), Encode(x), Encode(y));
    Associate(Fed(front) + Encode(x), Encode(y), Encode(z));
  }

  lemma FedTwo(front: seq<string>, x: string, y: string)
    ensures Fed(front + [x, y]) == Fed(front) + Encode(x) + Encode(y)
  {
    var vals := front + [x, y];
    assert vals[..|vals| - 1] == front + [x];
    assert (front + [x])[..|front|] == front;
  }

  lemma {:induction false} EncodeConcat(a: string, b: string)
    ensures Encode(a + b) == Encode(a) + Encode(b)
  {
    if a == [] {
      assert a + b == b;
    } else {
      assert (a + b)[1..] == a[1..] + b;
      EncodeConcat(a[1..], b);
      Associate(EncodeChar(a[0]), Encode(a[1..]), Encode(b));
    }
  }

  lemma ShiftedExample(hash: Hash)
    ensures HashOf(hash, ["ab", "c"]) == HashOf(hash, ["a", "bc"])
    ensures !Apart(hash, {["ab", "c"], ["a", "bc"]})
  {
    ShiftedCollide(hash, [], "a", "b", "c");
    assert "a" + "b" == "ab" && "b" + "c" == "bc";
    assert [] + ["ab", "c"] == ["ab", "c"] && [] + ["a", "bc"] == ["a", "bc"];
    var p, q := ["ab", "c"], ["a", "bc"];
    assert p[1] != q[1];
    assert p in {p, q} && q in {p, q};
  }
}
