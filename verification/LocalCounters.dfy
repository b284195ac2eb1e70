/**
 Integer counters with thread-local buffers.  Amounts are 64-bit numbers that wrap around.
 */
module LocalCounters {
  import opened Integers
  import opened Wrappers
  import opened MetricVec

  // ---- Many threads ---------------------------------------------------------------------------------------

  /** A local counter; `added` once a flush has added its value and not yet put it back to zero. */
  datatype Local = Local(val: u64, added: bool)

  /**
   The shared value and the local ones.  What the counter was increased by in all, what was thrown away by
   resets, and how often a 64-bit sum has wrapped are kept for the record.
   */
  datatype State = State(global: u64, locals: seq<Local>, issued: nat, dropped: nat, wraps: nat)

  datatype Action =
    | Direct(amount: u64)
    | Inc(local: nat, amount: u64)
    | FlushAdd(local: nat)
    | FlushClear(local: nat)
    | ResetLocal(local: nat)
    | NewLocal

  /** A thread is in one operation of its local counter at a time; a flush of zero does nothing. */
  predicate Enabled(s: State, a: Action) {
    match a
    case Direct(_) => true
    case Inc(i, _) => i < |s.locals| && !s.locals[i].added
    case FlushAdd(i) => i < |s.locals| && !s.locals[i].added && s.locals[i].val != 0
    case FlushClear(i) => i < |s.locals| && s.locals[i].added
    case ResetLocal(i) => i < |s.locals| && !s.locals[i].added
    case NewLocal => true
  }

  function Wraps(a: u64, b: u64): nat {
    (a + b) / TWO64
  }

  function Next(s: State, a: Action): State
    requires Enabled(s, a)
  {
    match a
    case Direct(v) =>
      s.(global := WrappingAdd(s.global, v), issued := s.issued + v, wraps := s.wraps + Wraps(s.global, v))
    case Inc(i, v) =>
      var l := s.locals[i];
      s.(locals := s.locals[i := l.(val := WrappingAdd(l.val, v))], issued := s.issued + v,
         wraps := s.wraps + Wraps(l.val, v))
    case FlushAdd(i) =>
      var l := s.locals[i];
      s.(global := WrappingAdd(s.global, l.val), locals := s.locals[i := l.(added := true)],
         wraps := s.wraps + Wraps(s.global, l.val))
    case FlushClear(i) => s.(locals := s.locals[i := Local(0, false)])
    case ResetLocal(i) => s.(locals := s.locals[i := Local(0, false)], dropped := s.dropped + s.locals[i].val)
    case NewLocal => s.(locals := s.locals + [Local(0, false)])
  }

  function Unflushed(ls: seq<Local>): nat {
    if ls == [] then 0
    else Unflushed(ls[..|ls| - 1]) + if ls[|ls| - 1].added then 0 else ls[|ls| - 1].val
  }

  lemma {:induction false} UnflushedUpdate(ls: seq<Local>, i: nat, l: Local)
    requires i < |ls|
    ensures Unflushed(ls[i := l]) + (if ls[i].added then 0 else ls[i].val)
         == Unflushed(ls) + if l.added then 0 else l.val
  {
    var front := ls[..|ls| - 1];
    if i < |front| {
      assert ls[i := l][..|ls| - 1] == front[i := l];
      UnflushedUpdate(front, i, l);
    } else {
      assert ls[i := l][..|ls| - 1] == front;
    }
  }

  predicate Initial(s: State) {
    s.global == 0 && s.locals == [] && s.issued == 0 && s.dropped == 0 && s.wraps == 0
  }

  ghost predicate IsRun(states: seq<State>, actions: seq<Action>) {
    && |states| == |actions| + 1 && Initial(states[0])
    && forall k :: 0 <= k < |actions| ==> Enabled(states[k], actions[k]) && states[k + 1] == Next(states[k], actions[k])
  }

  /** Nothing is lost but what was reset, and what wrapped around. */
  predicate Conserved(s: State) {
    s.global + Unflushed(s.locals) + s.dropped + TWO64 * s.wraps == s.issued
  }

  lemma WrapsExactly(a: u64, b: u64)
    ensures WrappingAdd(a, b) + TWO64 * Wraps(a, b) == a + b
  {
  }

  lemma StepConserves(s: State, a: Action)
    requires Conserved(s) && Enabled(s, a)
    ensures Conserved(Next(s, a))
  {
    match a
    case Direct(v) => WrapsExactly(s.global, v);
    case Inc(i, v) =>
      WrapsExactly(s.locals[i].val, v);
      UnflushedUpdate(s.locals, i, Next(s, a).locals[i]);
    case FlushAdd(i) =>
      WrapsExactly(s.global, s.locals[i].val);
      UnflushedUpdate(s.locals, i, Next(s, a).locals[i]);
    case FlushClear(i) => UnflushedUpdate(s.locals, i, Local(0, false));
    case ResetLocal(i) => UnflushedUpdate(s.locals, i, Local(0, false));
    case NewLocal => assert (s.locals + [Local(0, false)])[..|s.locals|] == s.locals;
  }

  lemma {:induction false} RunConserves(states: seq<State>, actions: seq<Action>, k: nat)
    requires IsRun(states, actions) && k < |states|
    ensures Conserved(states[k])
  {
    if k > 0 {
      RunConserves(states, actions, k - 1);
      StepConserves(states[k - 1], actions[k - 1]);
    }
  }

  lemma {:induction false} NothingDropped(states: seq<State>, actions: seq<Action>, k: nat)
    requires IsRun(states, actions) && k < |states|
    requires forall j :: 0 <= j < k ==> !actions[j].ResetLocal?
    ensures states[k].dropped == 0
  {
    if k > 0 {
      NothingDropped(states, actions, k - 1);
    }
  }

  /** Without resets, the shared value and the unflushed ones make up all increments, modulo 2^64. */
  lemma Conservation(states: seq<State>, actions: seq<Action>, k: nat)
    requires IsRun(states, actions) && k < |states|
    requires forall j :: 0 <= j < k ==> !actions[j].ResetLocal?
    ensures (states[k].global + Unflushed(states[k].locals)) % TWO64 == states[k].issued % TWO64
    ensures states[k].issued < TWO64 ==> states[k].global + Unflushed(states[k].locals) == states[k].issued
  {
    var s := states[k];
    RunConserves(states, actions, k);
    NothingDropped(states, actions, k);
    ModuloDrops(s.global + Unflushed(s.locals), s.wraps);
  }

  lemma {:induction false} ModuloDrops(n: nat, k: nat)
    ensures (n + TWO64 * k) % TWO64 == n % TWO64
  {
    if k > 0 {
      ModuloDrops(n, k - 1);
      assert n + TWO64 * k == n + TWO64 * (k - 1) + TWO64;
    }
  }

  lemma WrappingAssociates(a: u64, b: u64, c: u64)
    ensures WrappingAdd(a, WrappingAdd(b, c)) == WrappingAdd(WrappingAdd(a, b), c)
  {
    WrapsExactly(a, b);
    WrapsExactly(b, c);
    ModuloDrops(a + WrappingAdd(b, c), Wraps(b, c));
    ModuloDrops(WrappingAdd(a, b) + c, Wraps(a, b));
  }

  // ---- One local counter ----------------------------------------------------------------------------------

  class GenericCounter {
    var value: u64

    constructor ()
      ensures value == 0
    {
      value := 0;
    }

    method IncBy(v: u64)
      modifies this
      ensures value == WrappingAdd(old(value), v)
    {
      value := WrappingAdd(value, v);
    }
  }

  class GenericLocalCounter {
    const counter: GenericCounter
    var val: u64

    constructor (counter: GenericCounter)
      ensures this.counter == counter && val == 0
    {
      this.counter := counter;
      val := 0;
    }

    /** The shared value with what is buffered here. */
    function Total(): u64
      reads this, counter
    {
      WrappingAdd(counter.value, val)
    }

    method IncBy(v: u64)
      modifies this
      ensures val == WrappingAdd(old(val), v) && Total() == WrappingAdd(old(Total()), v)
    {
      WrappingAssociates(counter.value, val, v);
      val := WrappingAdd(val, v);
    }

    method ResetBuffer()
      modifies this
      ensures val == 0 && Total() == counter.value
    {
      val := 0;
    }

    /** Moves the buffered amount: the total stays what it was. */
    method Flush()
      modifies this, counter
      ensures val == 0 && counter.value == Total() == old(Total())
    {
      if val == 0 {
        return;
      }
      counter.IncBy(val);
      val := 0;
    }
  }

  // ---- A local vector of counters -------------------------------------------------------------------------

  /** A local counter in a vector: the child it was made for, and what it holds. */
  datatype Entry = Entry(child: nat, val: u64)

  /** The shared values of a vector's children; a child starts at zero. */
  type Cells = map<nat, u64>

  function ValueOf(cells: Cells, child: nat): u64 {
    if child in cells then cells[child] else 0
  }

  /** The vector, its children's values, and one thread's local counters by hash. */
  datatype VecState = VecState(vec: MetricVec.State, cells: Cells, local: map<u64, Entry>)

  predicate BuiltFor(c: Config, s: VecState, child: nat, h: u64) {
    child < |s.vec.built| && HashOf(c.hash, s.vec.built[child]) == h
  }

  /** Every child, and every local counter's child, was built with values that have its hash. */
  ghost predicate Valid(c: Config, s: VecState) {
    && (forall h <- s.vec.children :: BuiltFor(c, s, s.vec.children[h], h))
    && (forall h <- s.local :: BuiltFor(c, s, s.local[h].child, h))
  }

  /** What the hash's local counter holds. */
  function Held(s: VecState, h: u64): u64 {
    if h in s.local then s.local[h].val else 0
  }

  /** A local counter and its child's value, flushed or as they were. */
  predicate FlushedAt(s: VecState, s': VecState, h: u64, done: bool)
    requires h in s.local && h in s'.local
  {
    var Entry(child, val) := s.local[h];
    if done then s'.local[h] == Entry(child, 0) && ValueOf(s'.cells, child) == WrappingAdd(ValueOf(s.cells, child), val)
    else s'.local[h] == Entry(child, val) && ValueOf(s'.cells, child) == ValueOf(s.cells, child)
  }

  /** No local counter of this vector is for the child. */
  predicate Foreign(s: VecState, child: nat) {
    forall h <- s.local :: s.local[h].child != child
  }

  /** Everything in `done` has been flushed, and nothing else has happened. */
  ghost predicate Flushed(s: VecState, s': VecState, done: set<u64>) {
    && s'.vec == s.vec && s'.local.Keys == s.local.Keys
    && (forall h <- s.local :: FlushedAt(s, s', h, h in done))
    && (forall child: nat :: Foreign(s, child) ==> ValueOf(s'.cells, child) == ValueOf(s.cells, child))
  }

  /** The flush of one local counter. */
  function FlushOne(s: VecState, h: u64): VecState
    requires h in s.local
  {
    var Entry(child, val) := s.local[h];
    if val == 0 then s
    else s.(cells := s.cells[child := WrappingAdd(ValueOf(s.cells, child), val)], local := s.local[h := Entry(child, 0)])
  }

  ghost predicate OwnChildren(s: VecState) {
    forall h, k :: h in s.local && k in s.local && h != k ==> s.local[h].child != s.local[k].child
  }

  lemma ValidMeansOwn(c: Config, s: VecState)
    requires Valid(c, s)
    ensures OwnChildren(s)
  {
  }

  lemma FlushOneValid(c: Config, s: VecState, h: u64)
    requires Valid(c, s) && h in s.local
    ensures Valid(c, FlushOne(s, h))
  {
    assert FlushOne(s, h).local.Keys == s.local.Keys;
  }

  lemma FlushOneAt(s: VecState, h: u64)
    requires OwnChildren(s) && h in s.local
    ensures var s' := FlushOne(s, h);
            && s'.vec == s.vec && s'.local.Keys == s.local.Keys && FlushedAt(s, s', h, true)
            && (forall k <- s.local :: k != h ==> FlushedAt(s, s', k, false))
            && (forall child: nat :: Foreign(s, child) ==> ValueOf(s'.cells, child) == ValueOf(s.cells, child))
  {
    AddsNothingIffZero(ValueOf(s.cells, s.local[h].child), s.local[h].val);
  }

  lemma FlushOneMore(s: VecState, s': VecState, done: set<u64>, h: u64)
    requires OwnChildren(s') && Flushed(s, s', done) && h in s.local && h !in done
    ensures Flushed(s, FlushOne(s', h), done + {h})
  {
    var s'' := FlushOne(s', h);
    FlushOneAt(s', h);
    forall k | k in s.local ensures FlushedAt(s, s'', k, k in done + {h}) {
      assert FlushedAt(s, s', k, k in done);
      assert k != h ==> FlushedAt(s', s'', k, false);
    }
    forall child: nat | Foreign(s, child) ensures ValueOf(s''.cells, child) == ValueOf(s.cells, child) {
      forall k | k in s'.local ensures s'.local[k].child != child {
        assert FlushedAt(s, s', k, k in done);
      }
      assert Foreign(s', child);
    }
  }

  /** The vector's child for these values, obtained, and an empty local counter for it. */
  function WithNewLocal(c: Config, s: VecState, vals: seq<string>, child: nat): VecState {
    s.(vec := Step(c, s.vec, Get(vals)).0, local := s.local[HashOf(c.hash, vals) := Entry(child, 0)])
  }

  lemma NewLocalValid(c: Config, s: VecState, vals: seq<string>, child: nat)
    requires Valid(c, s) && Step(c, s.vec, Get(vals)).1 == Child(child)
    ensures Valid(c, WithNewLocal(c, s, vals, child))
    ensures WithNewLocal(c, s, vals, child).vec.children == s.vec.children[HashOf(c.hash, vals) := child]
  {
  }

  class GenericLocalCounterVec {
    const vec: MetricVecCore
    var cells: Cells
    var local: map<u64, Entry>

    function View(): VecState
      reads this, vec
    {
      VecState(vec.View(), cells, local)
    }

    constructor (vec: MetricVecCore, cells: Cells)
      ensures this.vec == vec && this.cells == cells && local == map[]
    {
      this.vec := vec;
      this.cells := cells;
      local := map[];
    }

    /** The local counter for these values, made from the vector's child if there is none yet. */
    method WithLabelValues(vals: seq<string>) returns (r: Result<u64, VecError>)
      requires Valid(vec.config, View())
      modifies this, vec
      ensures Valid(vec.config, View()) && cells == old(cells)
      ensures r.Ok? ==> r.value == HashOf(vec.config.hash, vals) && r.value in local
      ensures r.Ok? && r.value in old(local) ==> View() == old(View())
      ensures r.Ok? && r.value !in old(local) ==>
                && vec.View() == Step(vec.config, old(vec.View()), Get(vals)).0
                && r.value in vec.children && local == old(local)[r.value := Entry(vec.children[r.value], 0)]
      ensures r.Err? ==> View() == old(View())
      ensures var h := HashOf(vec.config.hash, vals);
              r.Ok? <==>
                && |vals| == |vec.config.names|
                && (h in old(local) || h in old(vec.children) || vec.config.build(vals))
    {
      var hash := vec.HashLabelValues(vals);
      if hash.Err? {
        return Err(hash.error);
      }
      if hash.value in local {
        return hash;
      }
      ghost var before := View();
      var child := vec.GetMetricWithLabelValues(vals);
      if child.Err? {
        return Err(child.error);
      }
      local := local[hash.value := Entry(child.value, 0)];
      r := hash;
      NewLocalValid(vec.config, before, vals, child.value);
      assert View() == WithNewLocal(vec.config, before, vals, child.value);
    }

    method IncBy(h: u64, v: u64)
      requires h in local && Valid(vec.config, View())
      modifies this
      ensures local == old(local)[h := old(local)[h].(val := WrappingAdd(old(local)[h].val, v))]
      ensures cells == old(cells) && Valid(vec.config, View())
    {
      local := local[h := local[h].(val := WrappingAdd(local[h].val, v))];
    }

    method FlushEntry(h: u64)
      requires h in local
      modifies this
      ensures View() == FlushOne(old(View()), h)
    {
      var Entry(child, val) := local[h];
      if val == 0 {
        return;
      }
      cells := cells[child := WrappingAdd(ValueOf(cells, child), val)];
      local := local[h := Entry(child, 0)];
    }

    /** Flushes the local counters in whatever order the map yields them. */
    method Flush()
      requires Valid(vec.config, View())
      modifies this
      ensures Valid(vec.config, View()) && Flushed(old(View()), View(), old(local).Keys)
    {
      ghost var start, done: set<u64> := View(), {};
      var left := local.Keys;
      while left != {}
        invariant left + done == start.local.Keys && left !! done
        invariant Valid(vec.config, View()) && Flushed(start, View(), done)
      {
        var h :| h in left;
        FlushNext(h, start, done);
        left, done := left - {h}, done + {h};
      }
    }

    method FlushNext(h: u64, ghost start: VecState, ghost done: set<u64>)
      requires Valid(vec.config, View()) && Flushed(start, View(), done) && h in start.local && h !in done
      modifies this
      ensures Valid(vec.config, View()) && Flushed(start, View(), done + {h})
    {
      ghost var now := View();
      ValidMeansOwn(vec.config, now);
      FlushOneMore(start, now, done, h);
      FlushOneValid(vec.config, now, h);
      FlushEntry(h);
    }

    /** Forgets the local counter, and then removes the child. */
    method RemoveLabelValues(vals: seq<string>) returns (r: Result<(), VecError>)
      requires Valid(vec.config, View())
      modifies this, vec
      ensures Valid(vec.config, View()) && cells == old(cells)
      ensures (vec.View(), if r.Ok? then Done else Failed(r.error)) == Step(vec.config, old(vec.View()), Delete(vals))
      ensures local == if |vals| == |vec.config.names| then old(local) - {HashOf(vec.config.hash, vals)} else old(local)
    {
      var hash := vec.HashLabelValues(vals);
      if hash.Err? {
        return Err(hash.error);
      }
      local := local - {hash.value};
      r := vec.DeleteLabelValues(vals);
    }
  }

  /** Forgetting a local counter, as removal does. */
  function Forget(s: VecState, h: u64): VecState {
    s.(local := s.local - {h})
  }

  /**
   Removal throws away what is buffered: flushing before it and flushing after it leave the same shared values
   exactly when the removed local counter held nothing.
   */
  lemma RemovalDiscards(c: Config, s: VecState, h: u64, before: VecState, after: VecState)
    requires Valid(c, s) && h in s.local
    requires Flushed(s, before, s.local.Keys) && Flushed(Forget(s, h), after, Forget(s, h).local.Keys)
    ensures (forall child :: ValueOf(before.cells, child) == ValueOf(after.cells, child)) <==> s.local[h].val == 0
    ensures ValueOf(after.cells, s.local[h].child) == ValueOf(s.cells, s.local[h].child)
  {
    var gone := Forget(s, h);
    var lost := s.local[h].child;
    ValidMeansOwn(c, s);
    assert Foreign(gone, lost);
    assert FlushedAt(s, before, h, true);
    AddsNothingIffZero(ValueOf(s.cells, lost), s.local[h].val);
    if s.local[h].val == 0 {
      forall child ensures ValueOf(before.cells, child) == ValueOf(after.cells, child) {
        if child != lost {
          if Foreign(gone, child) {
            forall k | k in s.local ensures s.local[k].child != child {
              assert k != h ==> k in gone.local;
            }
            assert Foreign(s, child);
          } else {
            var k :| k in gone.local && gone.local[k].child == child;
            assert FlushedAt(s, before, k, true) && FlushedAt(gone, after, k, true);
          }
        }
      }
    }
  }

  lemma AddsNothingIffZero(a: u64, b: u64)
    ensures WrappingAdd(a, b) == a <==> b == 0
  {
    if a + b >= TWO64 {
      assert (a + b) % TWO64 == a + b - TWO64;
    }
  }
}
