/** What registering and unregistering keep, over all runs, and where the keys by wrapping sum give out. */
module RegistryInvariant {
  import opened Integers
  import opened Wrappers
  import opened Registry

  /** The recorded dimensions agree with every one of these descriptors. */
  ghost predicate Recorded(dims: map<string, u64>, descs: seq<Desc>) {
    forall i :: 0 <= i < |descs| ==> descs[i].fqName in dims && dims[descs[i].fqName] == descs[i].dimHash
  }

  /** `after` has every entry of `before`, unchanged. */
  ghost predicate Grows(before: map<string, u64>, after: map<string, u64>) {
    forall n :: n in before ==> n in after && after[n] == before[n]
  }

  ghost predicate KeysFit(s: State) {
    forall k :: k in s.collectorsById ==>
      && k == CollectorId(s.collectorsById[k].descs)
      && Distinct(s.collectorsById[k].descs)
      && Recorded(s.dimHashesByName, s.collectorsById[k].descs)
  }

  ghost predicate Disjoint(collectors: map<u64, Collector>) {
    forall k, k' :: k in collectors && k' in collectors && k != k' ==>
      Ids(collectors[k].descs) !! Ids(collectors[k'].descs)
  }

  /** The union of the ids of all registered collectors. */
  ghost function AllIds(collectors: map<u64, Collector>): set<u64> {
    set k, id | k in collectors && id in Ids(collectors[k].descs) :: id
  }

  /** `desc_ids` is the disjoint union of the registered collectors' ids; keys and dimensions fit. */
  ghost predicate Inv(s: State) {
    KeysFit(s) && Disjoint(s.collectorsById) && s.descIds == AllIds(s.collectorsById)
  }

  // ---- register -------------------------------------------------------------------------------------------

  /** The descriptor is refused before its name is recorded: its id is taken, or its dimensions differ. */
  ghost predicate Clashes(s: State, descs: seq<Desc>, k: nat)
    requires k < |descs|
  {
    || descs[k].id in s.descIds
    || (descs[k].fqName in s.dimHashesByName && s.dimHashesByName[descs[k].fqName] != descs[k].dimHash)
    || (exists i :: 0 <= i < k && descs[i].fqName == descs[k].fqName && descs[i].dimHash != descs[k].dimHash)
  }

  /** The descriptor is refused after its name is recorded: the collector has its id twice. */
  ghost predicate Repeats(descs: seq<Desc>, k: nat)
    requires k < |descs|
  {
    exists i :: 0 <= i < k && descs[i].id == descs[k].id
  }

  /** The names recorded for the first `m` descriptors, on top of what was there. */
  ghost predicate RecordedUpTo(before: map<string, u64>, after: map<string, u64>, descs: seq<Desc>, m: nat)
    requires m <= |descs|
  {
    && Grows(before, after)
    && Recorded(after, descs[..m])
    && (forall n :: n in after ==> n in before || exists i :: 0 <= i < m && descs[i].fqName == n)
  }

  lemma ClashSeen(s: State, descs: seq<Desc>, k: nat, dims: map<string, u64>)
    requires k < |descs| && RecordedUpTo(s.dimHashesByName, dims, descs, k)
    ensures descs[k].id in s.descIds || (descs[k].fqName in dims && dims[descs[k].fqName] != descs[k].dimHash)
       <==> Clashes(s, descs, k)
  {
    var d := descs[k];
    if d.fqName in dims && d.fqName !in s.dimHashesByName {
      var i :| 0 <= i < k && descs[i].fqName == d.fqName;
      assert descs[..k][i] == descs[i];
    }
    if i :| 0 <= i < k && descs[i].fqName == d.fqName && descs[i].dimHash != d.dimHash {
      assert descs[..k][i] == descs[i];
    }
  }

  lemma RepeatSeen(descs: seq<Desc>, k: nat)
    requires k < |descs|
    ensures descs[k].id in Ids(descs[..k]) <==> Repeats(descs, k)
  {
    assert forall i :: 0 <= i < k ==> descs[..k][i] == descs[i];
  }

  lemma RecordOne(s: State, descs: seq<Desc>, k: nat, dims: map<string, u64>)
    requires k < |descs| && RecordedUpTo(s.dimHashesByName, dims, descs, k)
    requires descs[k].fqName in dims ==> dims[descs[k].fqName] == descs[k].dimHash
    ensures RecordedUpTo(s.dimHashesByName, dims[descs[k].fqName := descs[k].dimHash], descs, k + 1)
  {
    assert descs[..k + 1] == descs[..k] + [descs[k]];
  }

  /**
   Where the loop of `register` stops: at the first descriptor that clashes, before its name is recorded; behind
   the first one that repeats, after that; or at the end.
   */
  ghost predicate Stop(s: State, descs: seq<Desc>, m: nat) {
    && m <= |descs|
    && (forall i :: 0 <= i < m ==> !Clashes(s, descs, i))
    && (forall i :: 0 <= i < m - 1 ==> !Repeats(descs, i))
    && (m < |descs| ==> Clashes(s, descs, m) || (0 < m && Repeats(descs, m - 1)))
  }

  lemma StopUnique(s: State, descs: seq<Desc>, m: nat, n: nat)
    requires Stop(s, descs, m) && Stop(s, descs, n)
    ensures m == n
  {
  }

  /** What the call fails with where its loop stops, if it does. */
  ghost function ErrorAt(s: State, descs: seq<Desc>, m: nat): Option<RegistryError>
    requires m <= |descs|
  {
    if m > 0 && Repeats(descs, m - 1) then Some(DuplicateDesc(descs[m - 1].fqName))
    else if m == |descs| then None
    else if descs[m].id in s.descIds then Some(AlreadyReg)
    else Some(InconsistentDims(descs[m]))
  }

  /** The loop stops there, having recorded the names before. */
  lemma {:induction false} AdmitStops(s: State, descs: seq<Desc>, k: nat, dims: map<string, u64>) returns (m: nat)
    requires k <= |descs|
    requires RecordedUpTo(s.dimHashesByName, dims, descs, k)
    requires forall i :: 0 <= i < k ==> !Clashes(s, descs, i) && !Repeats(descs, i)
    ensures Stop(s, descs, m)
    ensures RecordedUpTo(s.dimHashesByName, Admit(s, descs, k, dims).0, descs, m)
    ensures Admit(s, descs, k, dims).1 == ErrorAt(s, descs, m)
    decreases |descs| - k
  {
    m := k;
    if k < |descs| {
      ClashSeen(s, descs, k, dims);
      if !Clashes(s, descs, k) {
        RecordOne(s, descs, k, dims);
        RepeatSeen(descs, k);
        m := k + 1;
        if !Repeats(descs, k) {
          m := AdmitStops(s, descs, k + 1, dims[descs[k].fqName := descs[k].dimHash]);
        }
      }
    }
  }

  /** A collector is accepted exactly when its ids are new and distinct, its dimensions fit, and its key is free. */
  ghost predicate Acceptable(s: State, c: Collector) {
    && (forall i :: 0 <= i < |c.descs| ==> !Clashes(s, c.descs, i))
    && Distinct(c.descs)
    && CollectorId(c.descs) !in s.collectorsById
  }

  lemma DistinctIff(descs: seq<Desc>)
    ensures Distinct(descs) <==> forall i :: 0 <= i < |descs| ==> !Repeats(descs, i)
  {
    if i, j :| 0 <= i < j < |descs| && descs[i].id == descs[j].id {
      assert Repeats(descs, j);
    }
  }

  lemma RegisterAcceptsIff(s: State, c: Collector)
    ensures Registered(s, c).1.Ok? <==> Acceptable(s, c)
  {
    var m := AdmitStops(s, c.descs, 0, s.dimHashesByName);
    DistinctIff(c.descs);
  }

  /** A failed `register` leaves collectors and ids alone; a successful one adds exactly its collector and ids. */
  lemma RegisterEffect(s: State, c: Collector)
    ensures var (s', r) := Registered(s, c);
      && Grows(s.dimHashesByName, s'.dimHashesByName)
      && (r.Err? ==> s'.collectorsById == s.collectorsById && s'.descIds == s.descIds)
      && (r.Ok? ==>
           && s'.collectorsById == s.collectorsById[CollectorId(c.descs) := c]
           && s'.descIds == s.descIds + Ids(c.descs)
           && s.descIds !! Ids(c.descs)
           && Recorded(s'.dimHashesByName, c.descs))
  {
    var m := AdmitStops(s, c.descs, 0, s.dimHashesByName);
    RegisterAcceptsIff(s, c);
    if Registered(s, c).1.Ok? {
      assert c.descs[..m] == c.descs;
      forall id | id in Ids(c.descs) ensures id !in s.descIds {
        var i :| 0 <= i < |c.descs| && c.descs[i].id == id;
        assert !Clashes(s, c.descs, i);
      }
    }
  }

  /** One more collector under a free key adds its ids to the union. */
  lemma AddedIds(collectors: map<u64, Collector>, key: u64, c: Collector)
    requires key !in collectors
    ensures AllIds(collectors[key := c]) == AllIds(collectors) + Ids(c.descs)
  {
    var more := collectors[key := c];
    forall id ensures id in AllIds(more) <==> id in AllIds(collectors) || id in Ids(c.descs) {
      if id in AllIds(more) {
        var k :| k in more && id in Ids(more[k].descs);
        assert k != key ==> k in collectors;
      }
      if id in AllIds(collectors) {
        var k :| k in collectors && id in Ids(collectors[k].descs);
        assert k in more && more[k] == collectors[k];
      }
      if id in Ids(c.descs) {
        assert key in more && more[key] == c;
      }
    }
  }

  lemma AddedStaysDisjoint(collectors: map<u64, Collector>, key: u64, c: Collector)
    requires Disjoint(collectors) && key !in collectors
    requires forall k :: k in collectors ==> Ids(collectors[k].descs) !! Ids(c.descs)
    ensures Disjoint(collectors[key := c])
  {
  }

  lemma RegisterKeepsInv(s: State, c: Collector)
    requires Inv(s)
    ensures Inv(Registered(s, c).0)
  {
    RegisterEffect(s, c);
    RegisterAcceptsIff(s, c);
    if Registered(s, c).1.Ok? {
      AddedIds(s.collectorsById, CollectorId(c.descs), c);
      forall k | k in s.collectorsById ensures Ids(s.collectorsById[k].descs) !! Ids(c.descs) {
        assert forall id :: id in Ids(s.collectorsById[k].descs) ==> id in AllIds(s.collectorsById);
      }
      AddedStaysDisjoint(s.collectorsById, CollectorId(c.descs), c);
    }
  }

  /**
   A failed `register` may still record names.  A call leaves the whole state as it was exactly when it fails
   and every name up to where its loop stopped had been recorded before.
   */
  lemma RegisterUnchangedIff(s: State, c: Collector, m: nat)
    requires Stop(s, c.descs, m)
    ensures Registered(s, c).0 == s
       <==> Registered(s, c).1.Err? && forall i :: 0 <= i < m ==> c.descs[i].fqName in s.dimHashesByName
  {
    var n := AdmitStops(s, c.descs, 0, s.dimHashesByName);
    StopUnique(s, c.descs, m, n);
    var dims := Registered(s, c).0.dimHashesByName;
    assert forall i :: 0 <= i < m ==> c.descs[..m][i] == c.descs[i];
    if Registered(s, c).1.Ok? {
      assert CollectorId(c.descs) in Registered(s, c).0.collectorsById;
    } else if forall i :: 0 <= i < m ==> c.descs[i].fqName in s.dimHashesByName {
      assert dims.Keys == s.dimHashesByName.Keys;
      assert dims == s.dimHashesByName;
    }
  }

  /** Every call has such a stop. */
  lemma StopExists(s: State, c: Collector) returns (m: nat)
    ensures Stop(s, c.descs, m)
    ensures Registered(s, c).1.Ok? ==> m == |c.descs|
  {
    m := AdmitStops(s, c.descs, 0, s.dimHashesByName);
  }

  /** A collector that failed to register can so block another one that was acceptable before. */
  lemma FailedRegisterBlocks(failing: Collector, other: Collector)
    requires failing.descs == [Desc("a", 1, 10), Desc("b", 1, 20)]
    requires other.descs == [Desc("a", 2, 11)]
    ensures Registered(EMPTY, failing).1.Err?
    ensures Registered(EMPTY, failing).0.collectorsById == map[]
    ensures Registered(EMPTY, other).1.Ok?
    ensures Registered(Registered(EMPTY, failing).0, other).1.Err?
  {
    var s := Registered(EMPTY, failing).0;
    RegisterAcceptsIff(EMPTY, failing);
    assert failing.descs[0].id == failing.descs[1].id;
    RegisterEffect(EMPTY, failing);
    var m := AdmitStops(EMPTY, failing.descs, 0, EMPTY.dimHashesByName);
    assert "a"[0] != "b"[0];
    assert forall i :: 0 <= i < 2 ==> !Clashes(EMPTY, failing.descs, i);
    assert m == 2 && failing.descs[..2][0] == Desc("a", 1, 10);
    RegisterAcceptsIff(EMPTY, other);
    assert !Clashes(EMPTY, other.descs, 0);
    RegisterAcceptsIff(s, other);
    assert Clashes(s, other.descs, 0);
  }

  /**
   Why a call fails: a repeated descriptor, one whose id is taken, one whose dimensions differ, or, with nothing
   wrong about the descriptors, a key that is taken.
   */
  lemma ErrorsTell(s: State, c: Collector, m: nat)
    requires Stop(s, c.descs, m)
    ensures var r := Registered(s, c).1;
            if m > 0 && Repeats(c.descs, m - 1) then r == Err(DuplicateDesc(c.descs[m - 1].fqName))
            else if m < |c.descs| && c.descs[m].id in s.descIds then r == Err(AlreadyReg)
            else if m < |c.descs| then r == Err(InconsistentDims(c.descs[m]))
            else if CollectorId(c.descs) in s.collectorsById then r == Err(AlreadyReg)
            else r == Ok(())
  {
    var n := AdmitStops(s, c.descs, 0, s.dimHashesByName);
    StopUnique(s, c.descs, m, n);
  }

  /** Registering a collector twice says that it is registered, and changes nothing. */
  lemma RegisteredTwice(s: State, c: Collector)
    requires Registered(s, c).1.Ok?
    ensures var s' := Registered(s, c).0; Registered(s', c) == (s', Err(AlreadyReg))
  {
    RegisterEffect(s, c);
    RegisterAcceptsIff(s, c);
    var s' := Registered(s, c).0;
    if c.descs != [] {
      assert c.descs[0].id in Ids(c.descs);
      assert Stop(s', c.descs, 0);
      ErrorsTell(s', c, 0);
      RegisterUnchangedIff(s', c, 0);
    }
  }

  // ---- Keys -------------------------------------------------------------------------------------------------

  function Total(ids: seq<u64>): nat {
    if ids == [] then 0 else ids[0] + Total(ids[1..])
  }

  lemma {:induction false} TotalNext(ids: seq<u64>, id: u64)
    ensures Total(ids + [id]) == Total(ids) + id
  {
    if ids == [] {
      assert ids + [id] == [id] && [id][1..] == [];
    } else {
      assert (ids + [id])[1..] == ids[1..] + [id];
      TotalNext(ids[1..], id);
    }
  }

  lemma {:induction false} WrappingSumTells(ids: seq<u64>)
    ensures WrappingSum(ids) == Total(ids) % 0x1_0000_0000_0000_0000
  {
    if ids != [] {
      var front, last := ids[..|ids| - 1], ids[|ids| - 1];
      WrappingSumTells(front);
      TotalNext(front, last);
      assert front + [last] == ids;
      AddWraps(Total(front), last);
    }
  }

  lemma AddWraps(n: nat, id: u64)
    ensures WrappingAdd(n % 0x1_0000_0000_0000_0000, id) == (n + id) % 0x1_0000_0000_0000_0000
  {
    var q, r := n / 0x1_0000_0000_0000_0000, n % 0x1_0000_0000_0000_0000;
    assert n + id == (r + id) + q * 0x1_0000_0000_0000_0000;
    Multiples(r + id, q);
  }

  lemma {:induction false} Multiples(n: nat, q: nat)
    ensures (n + q * 0x1_0000_0000_0000_0000) % 0x1_0000_0000_0000_0000 == n % 0x1_0000_0000_0000_0000
  {
    if q > 0 {
      Multiples(n, q - 1);
    }
  }

  /** A collector's key is the sum modulo 2^64 of its ids, every one of them once. */
  lemma KeyTells(descs: seq<Desc>) returns (ids: seq<u64>)
    ensures CollectorId(descs) == Total(ids) % 0x1_0000_0000_0000_0000
    ensures Once(ids)
    ensures forall id: u64 :: id in ids <==> exists i :: 0 <= i < |descs| && descs[i].id == id
  {
    ids := FirstIds(descs);
    WrappingSumTells(ids);
    FirstIdsOnce(descs);
    forall id: u64 ensures id in ids <==> exists i :: 0 <= i < |descs| && descs[i].id == id {
      assert id in ids <==> id in Ids(descs);
      if i: nat :| i < |descs| && descs[i].id == id {
        assert descs[i].id in Ids(descs);
      }
    }
  }

  predicate Once(ids: seq<u64>) {
    forall i, j :: 0 <= i < j < |ids| ==> ids[i] != ids[j]
  }

  lemma {:induction false} FirstIdsOnce(descs: seq<Desc>)
    ensures Once(FirstIds(descs))
  {
    if descs != [] {
      var front, last := FirstIds(descs[..|descs| - 1]), descs[|descs| - 1].id;
      FirstIdsOnce(descs[..|descs| - 1]);
      assert FirstIds(descs) == if last in front then front else front + [last];
    }
  }

  // ---- unregister -----------------------------------------------------------------------------------------

  /**
   `unregister` finds its target by the wrapping sum of ids alone.  It keeps the invariant exactly when the
   ids it frees are, among those taken, the ids of the collector it removes.
   */
  lemma UnregisterKeepsInvIff(s: State, c: Collector)
    requires Inv(s) && CollectorId(c.descs) in s.collectorsById
    ensures Inv(Unregistered(s, c).0) <==> Ids(c.descs) * s.descIds == Ids(s.collectorsById[CollectorId(c.descs)].descs)
  {
    var key := CollectorId(c.descs);
    var removed := Ids(s.collectorsById[key].descs);
    RemovedIds(s, key);
    assert removed <= s.descIds;
  }

  /**
   An error leaves everything as it was.  A success takes out one collector, and of the ids exactly those of the
   argument; all other collectors and all dimensions stay.
   */
  lemma UnregisterEffect(s: State, c: Collector)
    ensures var ((s', r), key) := (Unregistered(s, c), CollectorId(c.descs));
      && (r.Ok? <==> key in s.collectorsById)
      && (r.Err? ==> s' == s && r.error == NotRegistered)
      && (r.Ok? ==>
           && (forall k :: k in s'.collectorsById <==> k in s.collectorsById && k != key)
           && (forall k :: k in s'.collectorsById ==> s'.collectorsById[k] == s.collectorsById[k])
           && (forall id :: id in s'.descIds <==> id in s.descIds && forall i :: 0 <= i < |c.descs| ==> c.descs[i].id != id)
           && s'.dimHashesByName == s.dimHashesByName)
  {
    forall id ensures id in Ids(c.descs) <==> exists i :: 0 <= i < |c.descs| && c.descs[i].id == id {
    }
  }

  /** Without one collector, the union loses exactly that collector's ids. */
  lemma RemovedIds(s: State, key: u64)
    requires Inv(s) && key in s.collectorsById
    ensures AllIds(s.collectorsById - {key}) == s.descIds - Ids(s.collectorsById[key].descs)
    ensures Ids(s.collectorsById[key].descs) <= s.descIds
  {
    forall id ensures id in AllIds(s.collectorsById - {key})
                 <==> id in AllIds(s.collectorsById) && id !in Ids(s.collectorsById[key].descs) {
      RemovedId(s.collectorsById, key, id);
    }
  }

  lemma RemovedId(collectors: map<u64, Collector>, key: u64, id: u64)
    requires Disjoint(collectors) && key in collectors
    ensures id in AllIds(collectors - {key}) <==> id in AllIds(collectors) && id !in Ids(collectors[key].descs)
  {
    var rest := collectors - {key};
    if id in AllIds(rest) {
      var k :| k in rest && id in Ids(rest[k].descs);
      assert k in collectors && k != key;
    } else if id in AllIds(collectors) {
      var k :| k in collectors && id in Ids(collectors[k].descs);
      assert k != key ==> k in rest;
    }
  }

  lemma OneId(d: Desc)
    ensures FirstIds([d]) == [d.id] && CollectorId([d]) == d.id
  {
    assert [d][..0] == [] && FirstIds([d]) == [d.id];
    assert [d.id][..0] == [] && WrappingSum([d.id]) == WrappingAdd(WrappingSum([]), d.id);
  }

  lemma TwoIds(a: Desc, b: Desc)
    requires a.id != b.id
    ensures CollectorId([a, b]) == WrappingAdd(a.id, b.id)
  {
    OneId(a);
    assert [a, b][..1] == [a];
    var ids := FirstIds([a, b]);
    assert ids == [a.id, b.id] && ids[..|ids| - 1] == FirstIds([a]);
    assert WrappingSum(ids) == WrappingAdd(WrappingSum(FirstIds([a])), b.id);
  }

  lemma KeysCollide(a: Desc, b: Desc, c: Desc)
    requires a.id == 3 && b.id == 1 && c.id == 2
    ensures CollectorId([a]) == CollectorId([b, c]) == 3
  {
    OneId(a);
    TwoIds(b, c);
  }

  /** Ids 1 and 2 add up to the key of the collector with id 3, which they unregister; id 3 stays taken. */
  lemma UnregisterHitsAnother(registered: Collector, other: Collector)
    requires registered.descs == [Desc("a", 3, 10)]
    requires other.descs == [Desc("b", 1, 20), Desc("c", 2, 30)]
    ensures var s := Registered(EMPTY, registered).0;
      && Inv(s)
      && Unregistered(s, other).1.Ok?
      && Unregistered(s, other).0.collectorsById == map[]
      && 3 in Unregistered(s, other).0.descIds
      && !Inv(Unregistered(s, other).0)
      && Registered(Unregistered(s, other).0, registered).1.Err?
  {
    var s := Registered(EMPTY, registered).0;
    KeysCollide(registered.descs[0], other.descs[0], other.descs[1]);
    assert !Clashes(EMPTY, registered.descs, 0);
    RegisterAcceptsIff(EMPTY, registered);
    RegisterEffect(EMPTY, registered);
    RegisterKeepsInv(EMPTY, registered);
    assert registered.descs[0].id in Ids(registered.descs);
    assert Ids(other.descs) == {1, 2} by {
      assert other.descs[0].id in Ids(other.descs) && other.descs[1].id in Ids(other.descs);
    }
    UnregisterKeepsInvIff(s, other);
    var s' := Unregistered(s, other).0;
    assert s.collectorsById - {3} == map[];
    RegisterAcceptsIff(s', registered);
    assert Clashes(s', registered.descs, 0);
  }

  /** Unregistering a collector that was just registered restores collectors and ids. */
  lemma RegisterThenUnregister(s: State, c: Collector)
    requires Inv(s) && Registered(s, c).1.Ok?
    ensures var (s', r) := Unregistered(Registered(s, c).0, c);
      r.Ok? && s'.collectorsById == s.collectorsById && s'.descIds == s.descIds
  {
    RegisterEffect(s, c);
    RegisterAcceptsIff(s, c);
    var key := CollectorId(c.descs);
    assert s.collectorsById[key := c] - {key} == s.collectorsById;
  }

  // ---- Runs -----------------------------------------------------------------------------------------------

  datatype Call = Register(c: Collector) | Unregister(c: Collector)

  function Effect(s: State, call: Call): State {
    match call
    case Register(c) => Registered(s, c).0
    case Unregister(c) => Unregistered(s, c).0
  }

  function Run(calls: seq<Call>): State {
    if calls == [] then EMPTY else Effect(Run(calls[..|calls| - 1]), calls[|calls| - 1])
  }

  /** Among the collectors of these calls, equal keys mean equal id sets. */
  ghost predicate InjectiveKeys(calls: seq<Call>) {
    forall i, j :: 0 <= i < |calls| && 0 <= j < |calls| ==>
      CollectorId(calls[i].c.descs) == CollectorId(calls[j].c.descs) ==> Ids(calls[i].c.descs) == Ids(calls[j].c.descs)
  }

  ghost predicate FromCalls(s: State, calls: seq<Call>) {
    forall k :: k in s.collectorsById ==> exists i :: 0 <= i < |calls| && calls[i].c == s.collectorsById[k]
  }

  /** Over every run whose keys tell collectors apart, the invariant holds. */
  lemma {:induction false} RunKeepsInv(calls: seq<Call>)
    requires InjectiveKeys(calls)
    ensures Inv(Run(calls)) && FromCalls(Run(calls), calls)
  {
    if calls == [] {
      assert AllIds(EMPTY.collectorsById) == {};
    } else {
      var front, call := calls[..|calls| - 1], calls[|calls| - 1];
      RunKeepsInv(front);
      var s := Run(front);
      assert forall i :: 0 <= i < |front| ==> front[i] == calls[i];
      match call
      case Register(c) =>
        RegisterKeepsInv(s, c);
        RegisterEffect(s, c);
        assert calls[|calls| - 1].c == c;
      case Unregister(c) =>
        if CollectorId(c.descs) in s.collectorsById {
          var key := CollectorId(c.descs);
          var i :| 0 <= i < |front| && front[i].c == s.collectorsById[key];
          assert CollectorId(calls[i].c.descs) == CollectorId(calls[|calls| - 1].c.descs);
          RemovedIds(s, key);
          UnregisterKeepsInvIff(s, c);
        }
    }
  }

  /** Over every run, whatever the keys, no recorded dimension is ever dropped or changed. */
  lemma {:induction false} DimensionsOnlyGrow(calls: seq<Call>, i: nat)
    requires i <= |calls|
    ensures Grows(Run(calls[..i]).dimHashesByName, Run(calls).dimHashesByName)
  {
    if i == |calls| {
      assert calls[..i] == calls;
    } else {
      var front, call := calls[..|calls| - 1], calls[|calls| - 1];
      DimensionsOnlyGrow(front, i);
      assert front[..i] == calls[..i];
      if call.Register? {
        RegisterEffect(Run(front), call.c);
      }
    }
  }
}
