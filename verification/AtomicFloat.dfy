/**
 The atomic float: a cell of 64 bits that many threads add to through a load and compare-and-swap loop, and
 that can be overwritten at any time.  Addition on bit patterns is a parameter, so nothing here depends on how
 sums are rounded.
 */
module AtomicFloat {
  import opened Integers
  import opened Wrappers

  type Addition = (u64, u64) -> u64

  // ---- The cell as a sequential object --------------------------------------------------------------------

  /** `inc_by`, and the two ways of overwriting: `set`, and `swap`, which yields what it replaces. */
  datatype Op = Add(delta: u64) | Set(value: u64) | Swap(value: u64)

  function Apply(add: Addition, v: u64, op: Op): u64 {
    if op.Add? then add(v, op.delta) else op.value
  }

  function Run(add: Addition, v: u64, ops: seq<Op>): u64 {
    if ops == [] then v else Apply(add, Run(add, v, ops[..|ops| - 1]), ops[|ops| - 1])
  }

  lemma RunNext(add: Addition, v: u64, ops: seq<Op>, op: Op)
    ensures Run(add, v, ops + [op]) == Apply(add, Run(add, v, ops), op)
  {
    assert (ops + [op])[..|ops|] == ops;
  }

  // ---- Many threads ---------------------------------------------------------------------------------------

  /** Between operations, or past the load of an `inc_by`; `seen` is how much of the log the load came after. */
  datatype Pc = Idle | Loaded(current: u64, seen: nat)

  datatype Thread = Thread(program: seq<Op>, done: nat, pc: Pc)

  /** An operation that took effect: whose it is, and what the cell held right before. */
  datatype Entry = Entry(thread: nat, op: Op, before: u64)

  datatype State = State(cell: u64, threads: seq<Thread>, log: seq<Entry>)

  /** One action for each atomic access; a compare-and-swap may fail although the cell matches. */
  datatype Action = Load(thread: nat) | CompareExchange(thread: nat, spurious: bool) | Overwrite(thread: nat)

  predicate Working(s: State, t: nat) {
    t < |s.threads| && s.threads[t].done < |s.threads[t].program|
  }

  function NextOp(th: Thread): Op
    requires th.done < |th.program|
  {
    th.program[th.done]
  }

  predicate Enabled(s: State, a: Action) {
    && Working(s, a.thread)
    && var th := s.threads[a.thread];
       match a
       case Load(_) => th.pc.Idle? && NextOp(th).Add?
       case CompareExchange(_, _) => th.pc.Loaded? && NextOp(th).Add?
       case Overwrite(_) => th.pc.Idle? && !NextOp(th).Add?
  }

  /** The thread's next operation takes effect, leaving `cell`. */
  function Effect(s: State, t: nat, cell: u64): State
    requires Working(s, t)
  {
    var th := s.threads[t];
    State(cell, s.threads[t := th.(done := th.done + 1, pc := Idle)], s.log + [Entry(t, NextOp(th), s.cell)])
  }

  function Next(add: Addition, s: State, a: Action): State
    requires Enabled(s, a)
  {
    var t := a.thread;
    var th := s.threads[t];
    match a
    case Load(_) => s.(threads := s.threads[t := th.(pc := Loaded(s.cell, |s.log|))])
    case CompareExchange(_, spurious) =>
      if s.cell == th.pc.current && !spurious then Effect(s, t, add(th.pc.current, NextOp(th).delta))
      else s.(threads := s.threads[t := th.(pc := Idle)])
    case Overwrite(_) => Effect(s, t, NextOp(th).value)
  }

  predicate Initial(s: State) {
    s.log == [] && forall t :: 0 <= t < |s.threads| ==> s.threads[t].done == 0 && s.threads[t].pc.Idle?
  }

  ghost predicate IsRun(add: Addition, states: seq<State>, actions: seq<Action>) {
    && |states| == |actions| + 1 && Initial(states[0])
    && forall k :: 0 <= k < |actions| ==>
         Enabled(states[k], actions[k]) && states[k + 1] == Next(add, states[k], actions[k])
  }

  // ---- What every run keeps -------------------------------------------------------------------------------

  function Ops(log: seq<Entry>): (ops: seq<Op>)
    ensures |ops| == |log| && forall i :: 0 <= i < |log| ==> ops[i] == log[i].op
  {
    seq(|log|, i requires 0 <= i < |log| => log[i].op)
  }

  /** The operations of one thread, in the order in which they took effect. */
  function Own(log: seq<Entry>, t: nat): seq<Op> {
    if log == [] then []
    else
      var last := log[|log| - 1];
      Own(log[..|log| - 1], t) + if last.thread == t then [last.op] else []
  }

  /** The log explains the cell, what each operation saw, and how far each thread is. */
  ghost predicate Explained(add: Addition, v: u64, s: State) {
    && s.cell == Run(add, v, Ops(s.log))
    && (forall i :: 0 <= i < |s.log| ==> s.log[i].before == Run(add, v, Ops(s.log[..i])))
    && (forall t :: 0 <= t < |s.threads| ==> ThreadExplained(add, v, s, t))
  }

  ghost predicate ThreadExplained(add: Addition, v: u64, s: State, t: nat)
    requires t < |s.threads|
  {
    var th := s.threads[t];
    && th.done <= |th.program|
    && Own(s.log, t) == th.program[..th.done]
    && (th.pc.Loaded? ==> th.pc.seen <= |s.log| && th.pc.current == Run(add, v, Ops(s.log[..th.pc.seen])))
  }

  lemma LogNext(add: Addition, v: u64, log: seq<Entry>, e: Entry)
    ensures Run(add, v, Ops(log + [e])) == Apply(add, Run(add, v, Ops(log)), e.op)
    ensures forall t :: Own(log + [e], t) == Own(log, t) + if e.thread == t then [e.op] else []
    ensures forall i :: 0 <= i <= |log| ==> (log + [e])[..i] == log[..i]
  {
    assert Ops(log + [e]) == Ops(log) + [e.op];
    RunNext(add, v, Ops(log), e.op);
    assert (log + [e])[..|log|] == log;
  }

  lemma EffectKeeps(add: Addition, v: u64, s: State, t: nat, cell: u64)
    requires Explained(add, v, s) && Working(s, t)
    requires cell == Apply(add, s.cell, NextOp(s.threads[t]))
    ensures Explained(add, v, Effect(s, t, cell))
  {
    var th, s' := s.threads[t], Effect(s, t, cell);
    LogNext(add, v, s.log, Entry(t, NextOp(th), s.cell));
    assert s.log[..|s.log|] == s.log;
    forall u | 0 <= u < |s'.threads| ensures ThreadExplained(add, v, s', u) {
      assert ThreadExplained(add, v, s, u);
      assert th.program[..th.done + 1] == th.program[..th.done] + [NextOp(th)];
    }
  }

  lemma StepKeeps(add: Addition, v: u64, s: State, a: Action)
    requires Explained(add, v, s) && Enabled(s, a)
    ensures Explained(add, v, Next(add, s, a))
  {
    var t := a.thread;
    var th, s' := s.threads[t], Next(add, s, a);
    assert ThreadExplained(add, v, s, t);
    if a.Overwrite? || (a.CompareExchange? && s.cell == th.pc.current && !a.spurious) {
      EffectKeeps(add, v, s, t, s'.cell);
    } else {
      assert s.log[..|s.log|] == s.log;
      forall u | 0 <= u < |s'.threads| ensures ThreadExplained(add, v, s', u) {
        assert ThreadExplained(add, v, s, u);
      }
    }
  }

  /**
   In every reachable state the cell holds what the operations in the log, applied one after another, make of
   the first value; every thread's finished operations are in the log once each and in its own order; and
   each `swap` was given what the operations before it had made.
   */
  lemma {:induction false} Linearizable(add: Addition, states: seq<State>, actions: seq<Action>, k: nat)
    requires IsRun(add, states, actions) && k < |states|
    ensures Explained(add, states[0].cell, states[k])
  {
    if k > 0 {
      Linearizable(add, states, actions, k - 1);
      StepKeeps(add, states[0].cell, states[k - 1], actions[k - 1]);
    } else {
      assert Ops(states[0].log) == [];
    }
  }

  /** A compare-and-swap that does not fail spuriously fails only because an operation took effect since the load. */
  lemma FailureMeansProgress(add: Addition, states: seq<State>, actions: seq<Action>, k: nat)
    requires IsRun(add, states, actions) && k < |actions| && actions[k].CompareExchange? && !actions[k].spurious
    ensures var th := states[k].threads[actions[k].thread];
            && (states[k].cell == th.pc.current ==>
                  states[k + 1].log == states[k].log + [Entry(actions[k].thread, NextOp(th), states[k].cell)])
            && (states[k].cell != th.pc.current ==> th.pc.seen < |states[k].log| && states[k + 1].log == states[k].log)
  {
    Linearizable(add, states, actions, k);
    assert ThreadExplained(add, states[0].cell, states[k], actions[k].thread);
    assert states[k].log[..|states[k].log|] == states[k].log;
  }

  // ---- Sums -----------------------------------------------------------------------------------------------

  /** Where the last overwrite is, and 0 when there is none: everything from there on is an addition. */
  function AfterOverwrite(ops: seq<Op>): (i: nat)
    ensures i <= |ops| && (i > 0 ==> !ops[i - 1].Add?) && forall j :: i <= j < |ops| ==> ops[j].Add?
  {
    if ops == [] then 0
    else if !ops[|ops| - 1].Add? then |ops|
    else AfterOverwrite(ops[..|ops| - 1])
  }

  function Sum(value: u64 -> real, ops: seq<Op>): real {
    if ops == [] then 0.0
    else
      var last := ops[|ops| - 1];
      Sum(value, ops[..|ops| - 1]) + if last.Add? then value(last.delta) else 0.0
  }

  /** No addition on the way is rounded. */
  predicate Exact(add: Addition, value: u64 -> real, v: u64, ops: seq<Op>) {
    ops != [] ==>
      var front, last := ops[..|ops| - 1], ops[|ops| - 1];
      && Exact(add, value, v, front)
      && (last.Add? ==> value(Run(add, v, ops)) == value(Run(add, v, front)) + value(last.delta))
  }

  /** Where no addition is rounded, the cell is the last overwrite plus every delta since: none is lost. */
  lemma {:induction false} NoLostUpdates(add: Addition, value: u64 -> real, v: u64, ops: seq<Op>)
    requires Exact(add, value, v, ops)
    ensures var i := AfterOverwrite(ops);
            value(Run(add, v, ops)) == value(if i == 0 then v else ops[i - 1].value) + Sum(value, ops[i..])
  {
    var i := AfterOverwrite(ops);
    if i < |ops| {
      var front := ops[..|ops| - 1];
      NoLostUpdates(add, value, v, front);
      assert ops[i..][..|ops[i..]| - 1] == front[i..];
    } else {
      assert ops[i..] == [];
    }
  }

  lemma NothingLostInRun(add: Addition, value: u64 -> real, states: seq<State>, actions: seq<Action>, k: nat)
    requires IsRun(add, states, actions) && k < |states|
    requires Exact(add, value, states[0].cell, Ops(states[k].log))
    ensures var ops := Ops(states[k].log);
            var i := AfterOverwrite(ops);
            value(states[k].cell) == value(if i == 0 then states[0].cell else ops[i - 1].value) + Sum(value, ops[i..])
  {
    Linearizable(add, states, actions, k);
    NoLostUpdates(add, value, states[0].cell, Ops(states[k].log));
  }

  // ---- The object -----------------------------------------------------------------------------------------

  /** What happens to the cell between one thread's load and its compare-and-swap, and whether that one fails. */
  datatype Round = Round(others: seq<Op>, spurious: bool)

  class AtomicF64 {
    var inner: u64
    const add: Addition

    constructor (val: u64, add: Addition)
      ensures inner == val && this.add == add
    {
      inner := val;
      this.add := add;
    }

    method Set(val: u64)
      modifies this
      ensures inner == Apply(add, old(inner), Op.Set(val))
    {
      inner := val;
    }

    method Get() returns (val: u64)
      ensures val == inner
    {
      val := inner;
    }

    method Swap(val: u64) returns (previous: u64)
      modifies this
      ensures inner == Apply(add, old(inner), Op.Swap(val)) && previous == old(inner)
    {
      previous := inner;
      inner := val;
    }

    method CompareExchangeWeak(current: u64, new_: u64, spurious: bool) returns (r: Result<u64, u64>)
      modifies this
      ensures r.Ok? <==> old(inner) == current && !spurious
      ensures inner == if r.Ok? then new_ else old(inner)
      ensures r == if r.Ok? then Ok(current) else Err(old(inner))
    {
      if inner == current && !spurious {
        inner := new_;
        return Ok(current);
      }
      r := Err(inner);
    }

    /** Other threads' operations. */
    method Interfere(ops: seq<Op>)
      modifies this
      ensures inner == Run(add, old(inner), ops)
    {
      for i := 0 to |ops|
        invariant inner == Run(add, old(inner), ops[..i])
      {
        assert ops[..i + 1] == ops[..i] + [ops[i]];
        RunNext(add, old(inner), ops[..i], ops[i]);
        inner := Apply(add, inner, ops[i]);
      }
      assert ops[..|ops|] == ops;
    }

    /**
     The loop of `inc_by` amid others: the delta is added once, in the first round whose compare-and-swap goes
     through, or the rounds end and nothing has been added.
     */
    method IncBy(delta: u64, rounds: seq<Round>) returns (ok: bool, ghost ops: seq<Op>)
      modifies this
      ensures inner == Run(add, old(inner), ops)
      ensures !ok ==> ops == Others(rounds)
      ensures ok ==> exists k :: 0 <= k < |rounds| && GoesThrough(rounds, k, delta, ops)
      ensures ok <== exists k :: 0 <= k < |rounds| && rounds[k].others == [] && !rounds[k].spurious
    {
      ops := [];
      for i := 0 to |rounds|
        invariant inner == Run(add, old(inner), ops) && ops == Others(rounds[..i])
        invariant forall k :: 0 <= k < i ==> rounds[k].others != [] || rounds[k].spurious
      {
        var current := Get();
        var new_ := add(current, delta);
        Interfere(rounds[i].others);
        RunConcat(add, old(inner), ops, rounds[i].others);
        OthersNext(rounds, i);
        ops := ops + rounds[i].others;
        var result := CompareExchangeWeak(current, new_, rounds[i].spurious);
        if result.Ok? {
          RunNext(add, old(inner), ops, Add(delta));
          ops := ops + [Add(delta)];
          assert GoesThrough(rounds, i, delta, ops);
          return true, ops;
        }
      }
      assert rounds[..|rounds|] == rounds;
      ok := false;
    }
  }

  /** Rounds 0 to `k` were needed, and the delta came after what the others did in them. */
  ghost predicate GoesThrough(rounds: seq<Round>, k: nat, delta: u64, ops: seq<Op>)
    requires k < |rounds|
  {
    ops == Others(rounds[..k + 1]) + [Add(delta)]
  }

  function Others(rounds: seq<Round>): seq<Op> {
    if rounds == [] then [] else Others(rounds[..|rounds| - 1]) + rounds[|rounds| - 1].others
  }

  lemma OthersNext(rounds: seq<Round>, i: nat)
    requires i < |rounds|
    ensures Others(rounds[..i + 1]) == Others(rounds[..i]) + rounds[i].others
  {
    assert rounds[..i + 1][..i] == rounds[..i];
  }

  lemma {:induction false} RunConcat(add: Addition, v: u64, a: seq<Op>, b: seq<Op>)
    ensures Run(add, v, a + b) == Run(add, Run(add, v, a), b)
  {
    if b == [] {
      assert a + b == a;
    } else {
      assert (a + b)[..|a + b| - 1] == a + b[..|b| - 1];
      RunConcat(add, v, a, b[..|b| - 1]);
    }
  }
}
