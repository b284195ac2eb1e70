/**
 The registry's bookkeeping: which collectors are registered under which id, which descriptor ids are taken,
 and which label dimensions every metric name was first seen with.
 */
module Registry {
  import opened Integers
  import opened Wrappers
  import opened Model
  import opened Order
  import opened Gather

  /** The parts of a descriptor that the registry looks at. */
  datatype Desc = Desc(fqName: string, id: u64, dimHash: u64)

  /** A collector: its descriptors, and the families it would yield when collected. */
  datatype Collector = Collector(descs: seq<Desc>, families: seq<MetricFamily>)

  datatype RegistryError = AlreadyReg | InconsistentDims(desc: Desc) | DuplicateDesc(fqName: string) | NotRegistered

  datatype State = State(
    collectorsById: map<u64, Collector>,
    dimHashesByName: map<string, u64>,
    descIds: set<u64>)

  const EMPTY := State(map[], map[], {})

  function Ids(descs: seq<Desc>): set<u64> {
    set i | 0 <= i < |descs| :: descs[i].id
  }

  predicate Distinct(descs: seq<Desc>) {
    forall i, j :: 0 <= i < j < |descs| ==> descs[i].id != descs[j].id
  }

  /** The first occurrence of each id, in order. */
  function FirstIds(descs: seq<Desc>): (ids: seq<u64>)
    ensures forall id :: id in ids <==> id in Ids(descs)
  {
    if descs == [] then []
    else
      var front, last := FirstIds(descs[..|descs| - 1]), descs[|descs| - 1];
      assert Ids(descs) == Ids(descs[..|descs| - 1]) + {last.id};
      if last.id in front then front else front + [last.id]
  }

  function WrappingSum(ids: seq<u64>): u64 {
    if ids == [] then 0 else WrappingAdd(WrappingSum(ids[..|ids| - 1]), ids[|ids| - 1])
  }

  /** A collector's key: the wrapping sum of its descriptor ids, each taken once. */
  function CollectorId(descs: seq<Desc>): u64 {
    WrappingSum(FirstIds(descs))
  }

  // ---- register, as a function of the state ---------------------------------------------------------------

  /** Checks the descriptors from `k` on; yields the names it has recorded up to where it stopped. */
  function Admit(s: State, descs: seq<Desc>, k: nat, dims: map<string, u64>)
    : (r: (map<string, u64>, Option<RegistryError>))
    requires k <= |descs|
    decreases |descs| - k
  {
    if k == |descs| then (dims, None)
    else
      var d := descs[k];
      if d.id in s.descIds then (dims, Some(AlreadyReg))
      else if d.fqName in dims && dims[d.fqName] != d.dimHash then (dims, Some(InconsistentDims(d)))
      else
        var dims' := dims[d.fqName := d.dimHash];
        if d.id in Ids(descs[..k]) then (dims', Some(DuplicateDesc(d.fqName)))
        else Admit(s, descs, k + 1, dims')
  }

  function Registered(s: State, c: Collector): (State, Result<(), RegistryError>) {
    var (dims, error) := Admit(s, c.descs, 0, s.dimHashesByName);
    var s' := s.(dimHashesByName := dims);
    var key := CollectorId(c.descs);
    match error
    case Some(e) => (s', Err(e))
    case None =>
      if key in s.collectorsById then (s', Err(AlreadyReg))
      else (s'.(collectorsById := s.collectorsById[key := c], descIds := s.descIds + Ids(c.descs)), Ok(()))
  }

  function Unregistered(s: State, c: Collector): (State, Result<(), RegistryError>) {
    var key := CollectorId(c.descs);
    if key !in s.collectorsById then (s, Err(NotRegistered))
    else (s.(collectorsById := s.collectorsById - {key}, descIds := s.descIds - Ids(c.descs)), Ok(()))
  }

  // ---- gather ---------------------------------------------------------------------------------------------

  /** What the collectors yield when they are walked in this order. */
  function InOrder(collectors: map<u64, Collector>, order: seq<u64>): seq<MetricFamily> {
    if order == [] then []
    else
      var k := order[|order| - 1];
      InOrder(collectors, order[..|order| - 1]) + (if k in collectors then collectors[k].families else [])
  }

  /** A walk over a hash map: every key once, in any order. */
  ghost predicate Walk(order: seq<u64>, keys: set<u64>) {
    multiset(order) == multiset(keys)
  }

  /** The families merged by name, with the names in order, as this walk over the collectors yields them. */
  ghost predicate MergingOf(collectors: map<u64, Collector>, order: seq<u64>, byName: map<string, MetricFamily>,
                            names: seq<string>) {
    && Walk(order, collectors.Keys)
    && byName == Merge(InOrder(collectors, order)) && names == Names(InOrder(collectors, order))
  }

  /** What gathering may yield: the families of some walk, with the common labels in some order. */
  ghost predicate GatheringOf(collectors: map<u64, Collector>, prefix: Option<string>, labels: Option<map<string, string>>,
                              out: seq<MetricFamily>) {
    exists order: seq<u64>, pairs: seq<LabelPair> ::
      Walk(order, collectors.Keys) && PairsOf(labels, pairs) && out == Gathered(InOrder(collectors, order), prefix, pairs)
  }

  ghost predicate PairsOf(labels: Option<map<string, string>>, pairs: seq<LabelPair>) {
    match labels
    case None => pairs == []
    case Some(m) =>
      && (forall i :: 0 <= i < |pairs| ==> pairs[i].name in m && pairs[i].value == m[pairs[i].name])
      && (forall i, j :: 0 <= i < j < |pairs| ==> pairs[i].name != pairs[j].name)
      && |pairs| == |m|
  }

  // ---- The registry in memory -----------------------------------------------------------------------------

  class RegistryCore {
    var collectorsById: map<u64, Collector>
    var dimHashesByName: map<string, u64>
    var descIds: set<u64>
    const labels: Option<map<string, string>>   // common labels for all registered collectors
    const prefix: Option<string>                // common namespace for all registered collectors

    function View(): State
      reads this
    {
      State(collectorsById, dimHashesByName, descIds)
    }

    constructor (prefix: Option<string>, labels: Option<map<string, string>>)
      ensures View() == EMPTY && this.prefix == prefix && this.labels == labels
    {
      collectorsById, dimHashesByName, descIds := map[], map[], {};
      this.prefix, this.labels := prefix, labels;
    }

    method Register(c: Collector) returns (r: Result<(), RegistryError>)
      modifies this
      ensures (View(), r) == Registered(old(View()), c)
    {
      var descIdSet: set<u64> := {};
      var collectorId: u64 := 0;
      ghost var s := View();
      var i := 0;
      while i < |c.descs|
        invariant i <= |c.descs|
        invariant collectorsById == s.collectorsById && descIds == s.descIds
        invariant descIdSet == Ids(c.descs[..i]) && Distinct(c.descs[..i])
        invariant collectorId == CollectorId(c.descs[..i])
        invariant Admit(s, c.descs, 0, s.dimHashesByName) == Admit(s, c.descs, i, dimHashesByName)
      {
        var desc := c.descs[i];
        if desc.id in descIds {
          return Err(AlreadyReg);
        }
        if desc.fqName in dimHashesByName && dimHashesByName[desc.fqName] != desc.dimHash {
          return Err(InconsistentDims(desc));
        }
        dimHashesByName := dimHashesByName[desc.fqName := desc.dimHash];
        assert c.descs[..i + 1][..i] == c.descs[..i];
        if desc.id in descIdSet {
          return Err(DuplicateDesc(desc.fqName));
        }
        descIdSet := descIdSet + {desc.id};
        collectorId := WrappingAdd(collectorId, desc.id);
        i := i + 1;
      }
      assert c.descs[..i] == c.descs;
      if collectorId in collectorsById {
        return Err(AlreadyReg);
      }
      descIds := descIds + descIdSet;
      collectorsById := collectorsById[collectorId := c];
      r := Ok(());
    }

    method Unregister(c: Collector) returns (r: Result<(), RegistryError>)
      modifies this
      ensures (View(), r) == Unregistered(old(View()), c)
    {
      var idSet: seq<u64> := [];
      var collectorId: u64 := 0;
      var i := 0;
      while i < |c.descs|
        invariant i <= |c.descs|
        invariant idSet == FirstIds(c.descs[..i])
        invariant collectorId == WrappingSum(idSet)
      {
        var desc := c.descs[i];
        assert c.descs[..i + 1][..i] == c.descs[..i];
        if desc.id !in idSet {
          assert (idSet + [desc.id])[..|idSet|] == idSet;
          idSet := idSet + [desc.id];
          collectorId := WrappingAdd(collectorId, desc.id);
        }
        i := i + 1;
      }
      assert c.descs[..i] == c.descs;
      if collectorId !in collectorsById {
        return Err(NotRegistered);
      }
      collectorsById := collectorsById - {collectorId};
      ghost var before := descIds;
      for j := 0 to |idSet|
        invariant descIds == before - (set k | 0 <= k < j :: idSet[k])
        invariant collectorsById == old(collectorsById) - {collectorId}
        invariant dimHashesByName == old(dimHashesByName)
      {
        descIds := descIds - {idSet[j]};
      }
      assert Ids(c.descs) == set k | 0 <= k < |idSet| :: idSet[k] by {
        assert forall id :: id in Ids(c.descs) <==> id in idSet;
      }
      r := Ok(());
    }

    /**
     Collects from every collector, in whatever order the hash map yields them, merges the families by
     name, sorts, and adds prefix and common labels.
     */
    method Gather() returns (out: seq<MetricFamily>)
      ensures GatheringOf(collectorsById, prefix, labels, out)
    {
      var byName, names := MergeFamilies();
      ghost var order: seq<u64> :| MergingOf(collectorsById, order, byName, names);
      ghost var mfs := InOrder(collectorsById, order);
      byName := SortFamilies(byName, names);
      var common := CommonPairs();
      SortedAreCollated(mfs, byName);
      out := DecorateAll(byName, names, common, Collated(mfs));
      assert out == Gathered(mfs, prefix, common);
    }

    method DecorateAll(byName: map<string, MetricFamily>, names: seq<string>, common: seq<LabelPair>,
                       ghost families: seq<MetricFamily>)
      returns (out: seq<MetricFamily>)
      requires |families| == |names|
      requires forall j :: 0 <= j < |names| ==> names[j] in byName && byName[names[j]] == families[j]
      ensures |out| == |families| && forall j :: 0 <= j < |out| ==> out[j] == Decorate(prefix, common, families[j])
    {
      out := [];
      for i := 0 to |names|
        invariant |out| == i && forall j :: 0 <= j < i ==> out[j] == Decorate(prefix, common, families[j])
      {
        out := out + [Decorate(prefix, common, byName[names[i]])];
      }
    }

    method MergeFamilies() returns (byName: map<string, MetricFamily>, names: seq<string>)
      ensures exists order: seq<u64> :: MergingOf(collectorsById, order, byName, names)
    {
      byName, names := map[], [];
      ghost var order: seq<u64> := [];
      var keys := collectorsById.Keys;
      while keys != {}
        invariant keys <= collectorsById.Keys
        invariant multiset(order) + multiset(keys) == multiset(collectorsById.Keys)
        invariant byName == Merge(InOrder(collectorsById, order)) && names == Names(InOrder(collectorsById, order))
      {
        var k :| k in keys;
        assert (order + [k])[..|order|] == order;
        byName, names := AddFamilies(byName, names, collectorsById[k].families, InOrder(collectorsById, order));
        keys := keys - {k};
        order := order + [k];
      }
      assert MergingOf(collectorsById, order, byName, names);
    }

    /** Adds the families of one collector to what the ones `before` made. */
    static method AddFamilies(given: map<string, MetricFamily>, givenNames: seq<string>, mfs: seq<MetricFamily>,
                              ghost before: seq<MetricFamily>)
      returns (byName: map<string, MetricFamily>, names: seq<string>)
      requires given == Merge(before) && givenNames == Names(before)
      ensures byName == Merge(before + mfs) && names == Names(before + mfs)
    {
      byName, names := given, givenNames;
      assert before + mfs[..0] == before;
      for i := 0 to |mfs|
        invariant byName == Merge(before + mfs[..i]) && names == Names(before + mfs[..i])
      {
        var mf := mfs[i];
        assert before + mfs[..i + 1] == (before + mfs[..i]) + [mf];
        MergeNext(before + mfs[..i], mf);
        byName, names := AddOne(byName, names, mf);
      }
      assert mfs[..|mfs|] == mfs;
    }

    static method AddOne(given: map<string, MetricFamily>, givenNames: seq<string>, mf: MetricFamily)
      returns (byName: map<string, MetricFamily>, names: seq<string>)
      requires StrictlySorted(givenNames) && forall n :: n in givenNames <==> n in given
      ensures byName == AddFamily(given, mf)
      ensures names == if mf.metric == [] then givenNames else Insert(givenNames, mf.name)
    {
      byName, names := given, givenNames;
      if mf.metric != [] {
        if mf.name in byName {
          var existent := byName[mf.name];
          byName := byName[mf.name := existent.(metric := existent.metric + mf.metric)];
          InsertPresent(names, mf.name);
        } else {
          byName := byName[mf.name := mf];
          names := Insert(names, mf.name);
        }
      }
    }

    static method SortFamilies(given: map<string, MetricFamily>, names: seq<string>)
      returns (byName: map<string, MetricFamily>)
      requires StrictlySorted(names) && forall n :: n in names <==> n in given
      ensures byName.Keys == given.Keys
      ensures forall j :: 0 <= j < |names| ==>
                byName[names[j]] == given[names[j]].(metric := SortMetrics(given[names[j]].metric))
    {
      byName := given;
      for i := 0 to |names|
        invariant byName.Keys == given.Keys
        invariant forall j :: 0 <= j < i ==>
                    byName[names[j]] == given[names[j]].(metric := SortMetrics(given[names[j]].metric))
        invariant forall j :: i <= j < |names| ==> byName[names[j]] == given[names[j]]
      {
        assert names[i] in names;
        var mf := byName[names[i]];
        forall j | 0 <= j < |names| && j != i ensures names[j] != names[i] {
          StringsTotal(names[i], names[j]);
        }
        byName := byName[names[i] := mf.(metric := SortMetrics(mf.metric))];
      }
    }

    method CommonPairs() returns (pairs: seq<LabelPair>)
      ensures PairsOf(labels, pairs)
    {
      pairs := [];
      if labels.Some? {
        var keys := labels.value.Keys;
        while keys != {}
          invariant keys <= labels.value.Keys
          invariant forall i :: 0 <= i < |pairs| ==>
            pairs[i].name in labels.value.Keys - keys && pairs[i].value == labels.value[pairs[i].name]
          invariant forall i, j :: 0 <= i < j < |pairs| ==> pairs[i].name != pairs[j].name
          invariant |pairs| + |keys| == |labels.value|
        {
          var k :| k in keys;
          pairs := pairs + [LabelPair(k, labels.value[k])];
          keys := keys - {k};
        }
      }
    }
  }

  /** What a gathering is, family by family, with the common labels and the prefix on it. */
  lemma GatheringTells(collectors: map<u64, Collector>, prefix: Option<string>, labels: Option<map<string, string>>,
                       out: seq<MetricFamily>)
    returns (order: seq<u64>, pairs: seq<LabelPair>, names: seq<string>)
    requires GatheringOf(collectors, prefix, labels, out)
    ensures Walk(order, collectors.Keys) && PairsOf(labels, pairs) && |names| == |out|
    ensures forall i :: 0 <= i < |out| ==> MadeOf(out[i], InOrder(collectors, order), names[i], prefix, pairs)
    ensures forall i, j :: 0 <= i < j < |names| ==> names[i] != names[j]
    ensures forall name :: name in names <==> Under(InOrder(collectors, order), name) != []
  {
    order, pairs :| Walk(order, collectors.Keys) && PairsOf(labels, pairs)
                    && out == Gathered(InOrder(collectors, order), prefix, pairs);
    names := GatheredTells(InOrder(collectors, order), prefix, pairs);
  }

  lemma MergeNext(mfs: seq<MetricFamily>, mf: MetricFamily)
    ensures Merge(mfs + [mf]) == AddFamily(Merge(mfs), mf)
    ensures Names(mfs + [mf]) == if mf.metric == [] then Names(mfs) else Insert(Names(mfs), mf.name)
  {
    assert (mfs + [mf])[..|mfs|] == mfs;
  }

  lemma SortedAreCollated(mfs: seq<MetricFamily>, byName: map<string, MetricFamily>)
    requires byName.Keys == Merge(mfs).Keys
    requires forall j :: 0 <= j < |Names(mfs)| ==>
               byName[Names(mfs)[j]] == Merge(mfs)[Names(mfs)[j]].(metric := SortMetrics(Merge(mfs)[Names(mfs)[j]].metric))
    ensures forall j :: 0 <= j < |Names(mfs)| ==>
              Names(mfs)[j] in byName && byName[Names(mfs)[j]] == Collated(mfs)[j]
  {
    assert forall j :: 0 <= j < |Names(mfs)| ==> Names(mfs)[j] in Names(mfs);
  }

  lemma {:induction false} InsertPresent(names: seq<string>, x: string)
    requires StrictlySorted(names) && x in names
    ensures Insert(names, x) == names
  {
    SortedUnique(Insert(names, x), names);
  }

  lemma {:induction false} InOrderConcat(collectors: map<u64, Collector>, a: seq<u64>, b: seq<u64>)
    ensures InOrder(collectors, a + b) == InOrder(collectors, a) + InOrder(collectors, b)
    decreases |b|
  {
    if b == [] {
      assert a + b == a;
    } else {
      assert (a + b)[..|a + b| - 1] == a + b[..|b| - 1];
      InOrderConcat(collectors, a, b[..|b| - 1]);
    }
  }

  /** A walk yields the families of each collector, one collector after another. */
  lemma InOrderTells(collectors: map<u64, Collector>, k: u64, rest: seq<u64>)
    requires k in collectors
    ensures InOrder(collectors, []) == []
    ensures InOrder(collectors, [k] + rest) == collectors[k].families + InOrder(collectors, rest)
  {
    InOrderConcat(collectors, [k], rest);
    assert [k][..0] == [];
  }

  lemma InOrderWithout(collectors: map<u64, Collector>, p: seq<u64>, k: u64, q: seq<u64>)
    ensures multiset(InOrder(collectors, p + [k] + q))
         == multiset(InOrder(collectors, p + q)) + multiset(InOrder(collectors, [k]))
  {
    InOrderConcat(collectors, p + [k], q);
    InOrderConcat(collectors, p, [k]);
    InOrderConcat(collectors, p, q);
  }

  lemma CutOne(front: seq<u64>, last: u64, p: seq<u64>, q: seq<u64>)
    requires multiset(front + [last]) == multiset(p + [last] + q)
    ensures multiset(front) == multiset(p + q)
  {
    assert multiset(front) == multiset(front + [last]) - multiset{last};
    assert multiset(p + q) == multiset(p + [last] + q) - multiset{last};
  }

  lemma {:induction false} InOrderPermutes(collectors: map<u64, Collector>, a: seq<u64>, b: seq<u64>)
    requires multiset(a) == multiset(b)
    ensures multiset(InOrder(collectors, a)) == multiset(InOrder(collectors, b))
    decreases |a|
  {
    assert |a| == |multiset(a)| == |multiset(b)| == |b|;
    if a != [] {
      var front, last := a[..|a| - 1], a[|a| - 1];
      assert last in multiset(b);
      var i :| 0 <= i < |b| && b[i] == last;
      var p, q := b[..i], b[i + 1..];
      assert a == front + [last] == front + [last] + [] && front + [] == front;
      assert b == p + [last] + q;
      CutOne(front, last, p, q);
      InOrderWithout(collectors, front, last, []);
      InOrderWithout(collectors, p, last, q);
      InOrderPermutes(collectors, front, p + q);
    }
  }

  /** Two walks over the same collectors gather the same, when ties are between equal metrics only. */
  lemma WalksGatherAlike(collectors: map<u64, Collector>, a: seq<u64>, b: seq<u64>, prefix: Option<string>,
                         pairs: seq<LabelPair>)
    requires Walk(a, collectors.Keys) && Walk(b, collectors.Keys)
    requires Agreeing(InOrder(collectors, a))
    ensures Gathered(InOrder(collectors, a), prefix, pairs) == Gathered(InOrder(collectors, b), prefix, pairs)
  {
    InOrderPermutes(collectors, a, b);
    GatherOrderIrrelevant(InOrder(collectors, a), InOrder(collectors, b), prefix, pairs);
  }
}
