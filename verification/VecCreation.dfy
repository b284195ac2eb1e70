/**
 A vector of metrics used by many threads: a call looks under the read lock, and one that finds nothing looks
 again under the write lock before it creates.  In between, others may create, remove or reset.
 */
module VecCreation {
  import opened Integers
  import opened Wrappers
  import opened MetricVec

  /** A thread between calls, or one that has found nothing under the read lock. */
  datatype Pc = Idle | Missed(vals: seq<string>)

  /** A call that was decided: whose it is, and its answer. */
  datatype Event = Event(thread: nat, op: Op, answer: Answer)

  datatype Shared = Shared(vec: MetricVec.State, pcs: seq<Pc>, log: seq<Event>)

  /** One action for each lock that is taken; a call with the wrong number of values ends before it takes one. */
  datatype Action =
    | ReadCheck(thread: nat, vals: seq<string>)
    | WriteCheck(thread: nat)
    | Remove(thread: nat, vals: seq<string>)
    | Clear(thread: nat)

  predicate Enabled(s: Shared, a: Action) {
    a.thread < |s.pcs| && (if a.WriteCheck? then s.pcs[a.thread].Missed? else s.pcs[a.thread].Idle?)
  }

  /** The thread's call is decided, in one step. */
  function Decide(c: Config, s: Shared, t: nat, op: Op): Shared
    requires t < |s.pcs|
  {
    var (vec, answer) := Step(c, s.vec, op);
    Shared(vec, s.pcs[t := Idle], s.log + [Event(t, op, answer)])
  }

  function Next(c: Config, s: Shared, a: Action): Shared
    requires Enabled(s, a)
  {
    match a
    case ReadCheck(t, vals) =>
      if |vals| == |c.names| && HashOf(c.hash, vals) !in s.vec.children then s.(pcs := s.pcs[t := Missed(vals)])
      else Decide(c, s, t, Get(vals))
    case WriteCheck(t) => Decide(c, s, t, Get(s.pcs[t].vals))
    case Remove(t, vals) => Decide(c, s, t, Delete(vals))
    case Clear(t) => Decide(c, s, t, Reset)
  }

  predicate Initial(s: Shared) {
    s.vec == EMPTY && s.log == [] && forall t :: 0 <= t < |s.pcs| ==> s.pcs[t].Idle?
  }

  ghost predicate IsRun(c: Config, states: seq<Shared>, actions: seq<Action>) {
    && |states| == |actions| + 1 && Initial(states[0])
    && forall k :: 0 <= k < |actions| ==>
         Enabled(states[k], actions[k]) && states[k + 1] == Next(c, states[k], actions[k])
  }

  /** What is found under the read lock is what the write lock would have given: nothing is created for it. */
  lemma ReadDecides(c: Config, s: Shared, vals: seq<string>)
    requires |vals| == |c.names| && HashOf(c.hash, vals) in s.vec.children
    ensures Step(c, s.vec, Get(vals)) == (s.vec, Child(s.vec.children[HashOf(c.hash, vals)]))
  {
  }

  // ---- The log is a sequential run ----------------------------------------------------------------------------

  function Ops(log: seq<Event>): (ops: seq<Op>)
    ensures |ops| == |log| && forall i :: 0 <= i < |log| ==> ops[i] == log[i].op
  {
    seq(|log|, i requires 0 <= i < |log| => log[i].op)
  }

  function AnswersIn(log: seq<Event>): (answers: seq<Answer>)
    ensures |answers| == |log| && forall i :: 0 <= i < |log| ==> answers[i] == log[i].answer
  {
    seq(|log|, i requires 0 <= i < |log| => log[i].answer)
  }

  /** The vector after these operations. */
  function After(c: Config, s: MetricVec.State, ops: seq<Op>): MetricVec.State
    decreases |ops|
  {
    if ops == [] then s else After(c, Step(c, s, ops[0]).0, ops[1..])
  }

  lemma {:induction false} OneMore(c: Config, s: MetricVec.State, ops: seq<Op>, op: Op)
    ensures After(c, s, ops + [op]) == Step(c, After(c, s, ops), op).0
    ensures Answers(c, s, ops + [op]) == Answers(c, s, ops) + [Step(c, After(c, s, ops), op).1]
    decreases |ops|
  {
    if ops == [] {
      assert ops + [op] == [op] && [op][1..] == [];
    } else {
      assert (ops + [op])[1..] == ops[1..] + [op];
      OneMore(c, Step(c, s, ops[0]).0, ops[1..], op);
    }
  }

  /** The vector is as the logged calls, one after another, leave it, and each was answered as it would be then. */
  ghost predicate Sequential(c: Config, s: Shared) {
    s.vec == After(c, EMPTY, Ops(s.log)) && AnswersIn(s.log) == Answers(c, EMPTY, Ops(s.log))
  }

  lemma DecideKeeps(c: Config, s: Shared, t: nat, op: Op)
    requires Sequential(c, s) && t < |s.pcs|
    ensures Sequential(c, Decide(c, s, t, op))
  {
    var s' := Decide(c, s, t, op);
    OneMore(c, EMPTY, Ops(s.log), op);
    assert Ops(s'.log) == Ops(s.log) + [op];
    assert AnswersIn(s'.log) == AnswersIn(s.log) + [Step(c, s.vec, op).1];
  }

  lemma StepKeeps(c: Config, s: Shared, a: Action)
    requires Sequential(c, s) && Enabled(s, a)
    ensures Sequential(c, Next(c, s, a))
  {
    match a
    case ReadCheck(t, vals) => DecideKeeps(c, s, t, Get(vals));
    case WriteCheck(t) => DecideKeeps(c, s, t, Get(s.pcs[t].vals));
    case Remove(t, vals) => DecideKeeps(c, s, t, Delete(vals));
    case Clear(t) => DecideKeeps(c, s, t, Reset);
  }

  /**
   Linearizability: in every run the calls are answered as if each had happened at once, at the lock that
   decided it, whatever others did between its read check and its write check.
   */
  lemma {:induction false} Linearizable(c: Config, states: seq<Shared>, actions: seq<Action>, k: nat)
    requires IsRun(c, states, actions) && k < |states|
    ensures Sequential(c, states[k])
  {
    if k > 0 {
      Linearizable(c, states, actions, k - 1);
      StepKeeps(c, states[k - 1], actions[k - 1]);
    } else {
      assert Ops(states[0].log) == [] && AnswersIn(states[0].log) == [];
    }
  }

  /**
   As long as no two of the tuples in use have the same hash, the answers of every concurrent run are those of
   a map from tuples to children, in the order of the deciding locks.
   */
  lemma RefinesTable(c: Config, states: seq<Shared>, actions: seq<Action>, k: nat, used: set<seq<string>>)
    requires IsRun(c, states, actions) && k < |states|
    requires Apart(c.hash, used) && Within(Ops(states[k].log), used)
    ensures AnswersIn(states[k].log) == TableAnswers(c, EMPTY_TABLE, Ops(states[k].log))
  {
    Linearizable(c, states, actions, k);
    RunRefines(c, EMPTY, EMPTY_TABLE, used, Ops(states[k].log));
  }

  // ---- The log explains the children ------------------------------------------------------------------------------

  predicate Obtains(c: Config, e: Event, h: u64) {
    e.op.Get? && e.answer.Child? && HashOf(c.hash, e.op.vals) == h
  }

  predicate Removes(c: Config, e: Event, h: u64) {
    e.op.Reset? || (e.op.Delete? && e.answer.Done? && HashOf(c.hash, e.op.vals) == h)
  }

  /** The child under a hash, as the log has it. */
  function Lookup(c: Config, log: seq<Event>, h: u64): Option<nat> {
    if log == [] then None
    else
      var last := log[|log| - 1];
      if Removes(c, last, h) then None
      else if Obtains(c, last, h) then Some(last.answer.child)
      else Lookup(c, log[..|log| - 1], h)
  }

  /** Who obtains a child gets the one there is, or, where there is none, one that nobody has had. */
  ghost predicate Right(c: Config, before: seq<Event>, e: Event) {
    e.op.Get? && e.answer.Child? ==>
      match Lookup(c, before, HashOf(c.hash, e.op.vals))
      case Some(child) => e.answer.child == child
      case None => forall j :: 0 <= j < |before| && before[j].answer.Child? ==> before[j].answer.child != e.answer.child
  }

  ghost predicate AllRight(c: Config, log: seq<Event>) {
    forall i :: 0 <= i < |log| ==> Right(c, log[..i], log[i])
  }

  function Under(children: map<u64, nat>, h: u64): Option<nat> {
    if h in children then Some(children[h]) else None
  }

  /** The children are what the log says, and every child that was given out has been created. */
  ghost predicate Inv(c: Config, s: Shared) {
    && AllRight(c, s.log)
    && (forall h: u64 :: Lookup(c, s.log, h) == Under(s.vec.children, h))
    && (forall i :: 0 <= i < |s.log| && s.log[i].answer.Child? ==> s.log[i].answer.child < |s.vec.built|)
  }

  function LookupAfter(c: Config, log: seq<Event>, e: Event, h: u64): Option<nat> {
    if Removes(c, e, h) then None else if Obtains(c, e, h) then Some(e.answer.child) else Lookup(c, log, h)
  }

  lemma LogNext(c: Config, log: seq<Event>, e: Event)
    requires AllRight(c, log) && Right(c, log, e)
    ensures AllRight(c, log + [e])
    ensures forall h: u64 :: Lookup(c, log + [e], h) == LookupAfter(c, log, e, h)
  {
    assert (log + [e])[..|log|] == log;
    forall i | 0 <= i < |log + [e]| ensures Right(c, (log + [e])[..i], (log + [e])[i]) {
      assert (log + [e])[..i] == log[..i];
      assert log[..|log|] == log;
    }
  }

  lemma DecideKeepsInv(c: Config, s: Shared, t: nat, op: Op)
    requires Inv(c, s) && t < |s.pcs|
    ensures Inv(c, Decide(c, s, t, op))
  {
    var s' := Decide(c, s, t, op);
    var e := s'.log[|s.log|];
    assert op.Get? ==> Lookup(c, s.log, HashOf(c.hash, op.vals)) == Under(s.vec.children, HashOf(c.hash, op.vals));
    if e.answer.Child? && HashOf(c.hash, op.vals) in s.vec.children {
      assert s.log[..|s.log|] == s.log;
      var k := LookupSource(c, s.log, |s.log|, HashOf(c.hash, op.vals));
    }
    LogNext(c, s.log, e);
    forall h: u64 ensures Lookup(c, s'.log, h) == Under(s'.vec.children, h) {
      assert Lookup(c, s.log, h) == Under(s.vec.children, h);
    }
  }

  lemma StepKeepsInv(c: Config, s: Shared, a: Action)
    requires Inv(c, s) && Enabled(s, a)
    ensures Inv(c, Next(c, s, a))
  {
    match a
    case ReadCheck(t, vals) => DecideKeepsInv(c, s, t, Get(vals));
    case WriteCheck(t) => DecideKeepsInv(c, s, t, Get(s.pcs[t].vals));
    case Remove(t, vals) => DecideKeepsInv(c, s, t, Delete(vals));
    case Clear(t) => DecideKeepsInv(c, s, t, Reset);
  }

  lemma {:induction false} RunKeepsInv(c: Config, states: seq<Shared>, actions: seq<Action>, k: nat)
    requires IsRun(c, states, actions) && k < |states|
    ensures Inv(c, states[k])
  {
    if k > 0 {
      RunKeepsInv(c, states, actions, k - 1);
      StepKeepsInv(c, states[k - 1], actions[k - 1]);
    }
  }

  // ---- One child for each hash until it is removed -------------------------------------------------------------------

  predicate RemovedBetween(c: Config, log: seq<Event>, i: nat, j: nat, h: u64)
    requires j <= |log|
  {
    exists k :: i < k < j && Removes(c, log[k], h)
  }

  /** As long as nothing removes it, the child obtained at `i` is the one under its hash. */
  lemma {:induction false} StaysUntilRemoved(c: Config, log: seq<Event>, i: nat, m: nat, h: u64)
    requires AllRight(c, log) && i < m <= |log| && Obtains(c, log[i], h) && !RemovedBetween(c, log, i, m, h)
    ensures Lookup(c, log[..m], h) == Some(log[i].answer.child)
  {
    assert log[..m][..m - 1] == log[..m - 1] && log[..m][m - 1] == log[m - 1];
    if m > i + 1 {
      assert !RemovedBetween(c, log, i, m - 1, h);
      StaysUntilRemoved(c, log, i, m - 1, h);
      assert Right(c, log[..m - 1], log[m - 1]);
    }
  }

  /** A child under a hash was obtained there, and has not been removed since. */
  lemma {:induction false} LookupSource(c: Config, log: seq<Event>, m: nat, h: u64) returns (k: nat)
    requires m <= |log| && Lookup(c, log[..m], h).Some?
    ensures k < m && Obtains(c, log[k], h) && log[k].answer.child == Lookup(c, log[..m], h).value
    ensures !RemovedBetween(c, log, k, m, h)
  {
    assert log[..m][..m - 1] == log[..m - 1] && log[..m][m - 1] == log[m - 1];
    if Obtains(c, log[m - 1], h) {
      k := m - 1;
    } else {
      k := LookupSource(c, log, m - 1, h);
    }
  }

  lemma {:induction false} SameChildSource(c: Config, log: seq<Event>, i: nat, j: nat, g: u64, h: u64)
    requires AllRight(c, log) && i < j < |log| && Obtains(c, log[i], g) && Obtains(c, log[j], h)
    requires log[i].answer.child == log[j].answer.child
    ensures g == h && !RemovedBetween(c, log, i, j, g)
    decreases j
  {
    assert Right(c, log[..j], log[j]);
    assert log[..j][i] == log[i];
    var k := LookupSource(c, log, j, h);
    if k < i {
      SameChildSource(c, log, k, i, h, g);
    } else if k > i {
      SameChildSource(c, log, i, k, g, h);
    }
  }

  /**
   Of two calls, the later is given the same child as the earlier exactly when their hashes are equal and
   nothing removed that hash in between: concurrent callers never get two children for one hash, and a
   removed child never comes back.
   */
  lemma SameChildIff(c: Config, states: seq<Shared>, actions: seq<Action>, n: nat, i: nat, j: nat, g: u64, h: u64)
    requires IsRun(c, states, actions) && n < |states| && i < j < |states[n].log|
    requires Obtains(c, states[n].log[i], g) && Obtains(c, states[n].log[j], h)
    ensures states[n].log[i].answer.child == states[n].log[j].answer.child
       <==> g == h && !RemovedBetween(c, states[n].log, i, j, g)
  {
    var log := states[n].log;
    RunKeepsInv(c, states, actions, n);
    if log[i].answer.child == log[j].answer.child {
      SameChildSource(c, log, i, j, g, h);
    }
    if g == h && !RemovedBetween(c, log, i, j, g) {
      StaysUntilRemoved(c, log, i, j, g);
      assert Right(c, log[..j], log[j]);
    }
  }
}
