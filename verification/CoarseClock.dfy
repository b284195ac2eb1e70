/**
 The shared coarse clock and the flushes it spaces out: `RECENT` is raised by a compare-and-swap loop that
 threads run with clock readings of their own, and every root of local metrics is flushed when enough of
 `RECENT` time has gone by.
 */
module CoarseClock {
  import opened Integers
  import opened Wrappers

  /**
   A thread in `now_millis`: before its load, or in the loop with the value of `RECENT` it last saw.  `loaded`,
   what its load saw, is kept for the record.
   */
  datatype Pc = Out | Read(t: u64) | Looping(t: u64, recent: u64, loaded: u64)

  /** A root of local metrics: when it was last flushed, and how long it waits. */
  datatype Root = Root(last: u64, interval: u64)

  /** What is recorded: what `now_millis` returned, and flushes. */
  datatype Event = Returned(thread: nat, t: u64, loaded: u64, value: u64) | Flushed(root: nat, time: u64)

  datatype State = State(recent: u64, pcs: seq<Pc>, roots: seq<Root>, log: seq<Event>)

  /** A clock reading, which may be anything; the load; one turn of the loop; and `try_flush`. */
  datatype Action =
    | ReadClock(thread: nat, t: u64)
    | Load(thread: nat)
    | Turn(thread: nat, spurious: bool)
    | TryFlush(root: nat)

  predicate Enabled(s: State, a: Action) {
    match a
    case ReadClock(i, _) => i < |s.pcs| && s.pcs[i].Out?
    case Load(i) => i < |s.pcs| && s.pcs[i].Read?
    case Turn(i, _) => i < |s.pcs| && s.pcs[i].Looping?
    case TryFlush(r) => r < |s.roots|
  }

  /** Whether `try_flush` goes on to flush; the sum is a 64-bit one. */
  predicate Due(root: Root, now: u64) {
    now >= WrappingAdd(root.last, root.interval)
  }

  function Next(s: State, a: Action): State
    requires Enabled(s, a)
  {
    match a
    case ReadClock(i, t) => s.(pcs := s.pcs[i := Read(t)])
    case Load(i) => s.(pcs := s.pcs[i := Looping(s.pcs[i].t, s.recent, s.recent)])
    case Turn(i, spurious) =>
      var Looping(t, recent, loaded) := s.pcs[i];
      if recent > t then s.(pcs := s.pcs[i := Out], log := s.log + [Returned(i, t, loaded, recent)])
      else if s.recent == recent && !spurious then
        s.(recent := t, pcs := s.pcs[i := Out], log := s.log + [Returned(i, t, loaded, t)])
      else s.(pcs := s.pcs[i := Looping(t, s.recent, loaded)])
    case TryFlush(r) =>
      var root := s.roots[r];
      if Due(root, s.recent) then s.(roots := s.roots[r := root.(last := s.recent)], log := s.log + [Flushed(r, s.recent)])
      else s
  }

  predicate Initial(s: State) {
    && s.log == []
    && (forall i :: 0 <= i < |s.pcs| ==> s.pcs[i].Out?)
    && (forall r :: 0 <= r < |s.roots| ==> s.roots[r].last <= s.recent)
  }

  ghost predicate IsRun(states: seq<State>, actions: seq<Action>) {
    && |states| == |actions| + 1 && Initial(states[0])
    && forall k :: 0 <= k < |actions| ==> Enabled(states[k], actions[k]) && states[k + 1] == Next(states[k], actions[k])
  }

  // ---- The clock never goes back --------------------------------------------------------------------------

  /** Not below the clock reading, nor below what the load saw, nor above `recent`. */
  predicate InRange(e: Event, recent: u64)
    requires e.Returned?
  {
    e.t <= e.value && e.loaded <= e.value <= recent
  }

  ghost predicate Inv(s: State) {
    && (forall i :: 0 <= i < |s.pcs| && s.pcs[i].Looping? ==> s.pcs[i].loaded <= s.pcs[i].recent <= s.recent)
    && (forall r :: 0 <= r < |s.roots| ==> s.roots[r].last <= s.recent)
    && (forall k :: 0 <= k < |s.log| && s.log[k].Returned? ==> InRange(s.log[k], s.recent))
  }

  lemma StepKeepsInv(s: State, a: Action)
    requires Inv(s) && Enabled(s, a)
    ensures Inv(Next(s, a)) && s.recent <= Next(s, a).recent
  {
  }

  lemma {:induction false} RunKeepsInv(states: seq<State>, actions: seq<Action>, k: nat)
    requires IsRun(states, actions) && k < |states|
    ensures Inv(states[k])
  {
    if k > 0 {
      RunKeepsInv(states, actions, k - 1);
      StepKeepsInv(states[k - 1], actions[k - 1]);
    }
  }

  /** Racing callers never lower `RECENT`. */
  lemma {:induction false} NeverDecreases(states: seq<State>, actions: seq<Action>, j: nat, k: nat)
    requires IsRun(states, actions) && j <= k < |states|
    ensures states[j].recent <= states[k].recent
    decreases k - j
  {
    if j < k {
      NeverDecreases(states, actions, j, k - 1);
      RunKeepsInv(states, actions, k - 1);
      StepKeepsInv(states[k - 1], actions[k - 1]);
    }
  }

  /** What a call of `now_millis` has returned is in range, and `RECENT` is at least that from then on. */
  lemma ReturnedInRange(states: seq<State>, actions: seq<Action>, j: nat, k: nat, m: nat)
    requires IsRun(states, actions) && j <= k < |states| && m < |states[j].log| && states[j].log[m].Returned?
    ensures InRange(states[j].log[m], states[k].recent)
  {
    RunKeepsInv(states, actions, j);
    NeverDecreases(states, actions, j, k);
  }

  ghost predicate WasRecent(states: seq<State>, k: nat, value: u64) {
    exists j: nat :: j <= k && j < |states| && states[j].recent == value
  }

  ghost predicate AllWereRecent(states: seq<State>, k: nat)
    requires k < |states|
  {
    var s := states[k];
    && (forall i :: 0 <= i < |s.pcs| && s.pcs[i].Looping? ==> WasRecent(states, k, s.pcs[i].recent))
    && (forall m :: 0 <= m < |s.log| && s.log[m].Returned? ==> WasRecent(states, k, s.log[m].value))
  }

  lemma {:induction false} LoopsSawRecent(states: seq<State>, actions: seq<Action>, k: nat)
    requires IsRun(states, actions) && k < |states|
    ensures AllWereRecent(states, k)
  {
    if k > 0 {
      LoopsSawRecent(states, actions, k - 1);
      forall v | WasRecent(states, k - 1, v) ensures WasRecent(states, k, v) {
      }
      assert WasRecent(states, k, states[k].recent);
      assert WasRecent(states, k, states[k - 1].recent);
    }
  }

  /** What a call of `now_millis` has returned is a value that `RECENT` had at some point of the run. */
  lemma ReturnedWasRecent(states: seq<State>, actions: seq<Action>, k: nat, m: nat)
    requires IsRun(states, actions) && k < |states| && m < |states[k].log| && states[k].log[m].Returned?
    ensures exists j: nat :: j <= k && states[j].recent == states[k].log[m].value
  {
    LoopsSawRecent(states, actions, k);
    assert WasRecent(states, k, states[k].log[m].value);
  }

  // ---- Flushes are spaced out -----------------------------------------------------------------------------

  /** When a root was last flushed, as the log has it. */
  function LastFlush(log: seq<Event>, r: nat): Option<u64> {
    if log == [] then None
    else
      var last := log[|log| - 1];
      if last.Flushed? && last.root == r then Some(last.time) else LastFlush(log[..|log| - 1], r)
  }

  /** Every flush of root `r` came when it was due, counting from the one before. */
  ghost predicate Spaced(log: seq<Event>, r: nat, interval: u64) {
    forall k :: 0 <= k < |log| && log[k].Flushed? && log[k].root == r ==> SpacedAt(log, k, interval)
  }

  ghost predicate SpacedAt(log: seq<Event>, k: nat, interval: u64)
    requires k < |log| && log[k].Flushed?
  {
    var last := LastFlush(log[..k], log[k].root);
    last.Some? ==> last.value <= log[k].time && Due(Root(last.value, interval), log[k].time)
  }

  ghost predicate RootInv(s: State, r: nat, interval: u64) {
    && r < |s.roots| && s.roots[r].interval == interval
    && (LastFlush(s.log, r).Some? ==> s.roots[r].last == LastFlush(s.log, r).value)
    && Spaced(s.log, r, interval)
  }

  lemma LogNext(log: seq<Event>, e: Event, r: nat, interval: u64)
    requires Spaced(log, r, interval)
    requires e.Flushed? && e.root == r && LastFlush(log, r).Some? ==>
               LastFlush(log, r).value <= e.time && Due(Root(LastFlush(log, r).value, interval), e.time)
    ensures Spaced(log + [e], r, interval)
    ensures LastFlush(log + [e], r) == if e.Flushed? && e.root == r then Some(e.time) else LastFlush(log, r)
  {
    assert (log + [e])[..|log|] == log;
    forall k | 0 <= k < |log + [e]| && (log + [e])[k].Flushed? && (log + [e])[k].root == r
      ensures SpacedAt(log + [e], k, interval)
    {
      assert (log + [e])[..k] == log[..k];
      if k < |log| {
        assert log[k].Flushed? && SpacedAt(log, k, interval);
      }
    }
  }

  lemma StepKeepsRootInv(s: State, a: Action, r: nat, interval: u64)
    requires Inv(s) && Enabled(s, a) && RootInv(s, r, interval)
    ensures RootInv(Next(s, a), r, interval)
  {
    var s' := Next(s, a);
    if s'.log != s.log {
      LogNext(s.log, s'.log[|s.log|], r, interval);
    }
  }

  lemma {:induction false} RunKeepsRootInv(states: seq<State>, actions: seq<Action>, k: nat, r: nat)
    requires IsRun(states, actions) && k < |states| && r < |states[0].roots|
    ensures RootInv(states[k], r, states[0].roots[r].interval)
  {
    if k > 0 {
      RunKeepsRootInv(states, actions, k - 1, r);
      RunKeepsInv(states, actions, k - 1);
      StepKeepsRootInv(states[k - 1], actions[k - 1], r, states[0].roots[r].interval);
    }
  }

  lemma {:induction false} LastFlushAt(log: seq<Event>, r: nat, i: nat, j: nat)
    requires i < j <= |log| && log[i].Flushed? && log[i].root == r
    requires forall m :: i < m < j ==> !(log[m].Flushed? && log[m].root == r)
    ensures LastFlush(log[..j], r) == Some(log[i].time)
    decreases j
  {
    assert log[..j][..j - 1] == log[..j - 1] && log[..j][j - 1] == log[j - 1];
    if j > i + 1 {
      LastFlushAt(log, r, i, j - 1);
    }
  }

  /** A root is found due before its interval has passed exactly when the end of the interval is past 64 bits. */
  lemma DueEarlyIffWraps(root: Root, now: u64)
    requires root.last <= now
    ensures Due(root, now) && now < root.last + root.interval <==> root.last + root.interval >= TWO64
  {
    if root.last + root.interval >= TWO64 {
      assert WrappingAdd(root.last, root.interval) == root.last + root.interval - TWO64;
    }
  }

  /**
   In every run, two consecutive flushes of one root are at least its interval apart exactly when the end of
   the interval, counted from the first of them, is not past 64 bits.
   */
  lemma FlushesApartIff(states: seq<State>, actions: seq<Action>, n: nat, r: nat, i: nat, j: nat)
    requires IsRun(states, actions) && n < |states| && r < |states[0].roots|
    requires var log := states[n].log;
             && i < j < |log| && log[i].Flushed? && log[j].Flushed? && log[i].root == log[j].root == r
             && forall m :: i < m < j ==> !(log[m].Flushed? && log[m].root == r)
    ensures states[n].log[i].time + states[0].roots[r].interval <= states[n].log[j].time
       <==> states[n].log[i].time + states[0].roots[r].interval < TWO64
  {
    RunKeepsRootInv(states, actions, n, r);
    LastFlushAt(states[n].log, r, i, j);
    assert SpacedAt(states[n].log, j, states[0].roots[r].interval);
    DueEarlyIffWraps(Root(states[n].log[i].time, states[0].roots[r].interval), states[n].log[j].time);
  }

  /** In every reachable state, trying a root flushes it exactly if its interval has passed or its end wraps. */
  lemma FlushedIff(s: State, r: nat)
    requires Inv(s) && Enabled(s, TryFlush(r))
    ensures var root, s' := s.roots[r], Next(s, TryFlush(r));
            && (|s'.log| > |s.log| <==> s.recent >= root.last + root.interval || root.last + root.interval >= TWO64)
            && (|s'.log| > |s.log| ==> s'.roots[r].last == s.recent)
  {
    DueEarlyIffWraps(s.roots[r], s.recent);
  }

  /** A root that is to be flushed once in 2^64 - 1 milliseconds is flushed twice at the same time. */
  lemma WrapFlushesTwice()
    ensures var s := State(5, [], [Root(5, TWO64 - 1)], []);
            && Initial(s)
            && Next(Next(s, TryFlush(0)), TryFlush(0)).log == [Flushed(0, 5), Flushed(0, 5)]
  {
    var root := Root(5, TWO64 - 1);
    DueEarlyIffWraps(root, 5);
    var s := State(5, [], [root], []);
    assert Next(s, TryFlush(0)).roots == [root];
  }

  // ---- The cell -------------------------------------------------------------------------------------------

  /** What others raise `RECENT` to before this thread's next compare-and-swap, and whether that one fails. */
  datatype Round = Round(raised: u64, spurious: bool)

  /** Either what was there, or what others have raised the cell to. */
  predicate WasHeld(start: u64, rounds: seq<Round>, value: u64) {
    value == start || exists i :: 0 <= i < |rounds| && rounds[i].raised == value
  }

  class Recent {
    var millis: u64

    constructor ()
      ensures millis == 0
    {
      millis := 0;
    }

    method CompareExchangeWeak(current: u64, new_: u64, spurious: bool) returns (r: Result<u64, u64>)
      modifies this
      ensures r.Ok? <==> old(millis) == current && !spurious
      ensures millis == if r.Ok? then new_ else old(millis)
      ensures r == if r.Ok? then Ok(current) else Err(old(millis))
    {
      if millis == current && !spurious {
        millis := new_;
        return Ok(current);
      }
      r := Err(millis);
    }

    /** Others only raise the cell. */
    method Interfere(raised: u64)
      modifies this
      ensures millis == if raised > old(millis) then raised else old(millis)
    {
      if raised > millis {
        millis := raised;
      }
    }

    /** The loop of `now_millis` for the clock reading `t`; `None` if the rounds end before it does. */
    method NowMillis(t: u64, rounds: seq<Round>) returns (r: Option<u64>)
      modifies this
      ensures old(millis) <= millis
      ensures r.Some? ==> t <= r.value && old(millis) <= r.value <= millis
      ensures r.Some? ==> r.value == t == millis || (r.value > t && WasHeld(old(millis), rounds, r.value))
      ensures (|rounds| > 0 && old(millis) > t) ==> r == Some(old(millis)) && millis == old(millis)
      ensures (|rounds| > 0 && old(millis) <= t && rounds[0].raised <= old(millis) && !rounds[0].spurious) ==>
                r == Some(t) && millis == t
    {
      var recent := millis;
      for i := 0 to |rounds|
        invariant old(millis) <= recent == millis && WasHeld(old(millis), rounds[..i], recent)
        invariant i == 0 ==> recent == millis == old(millis)
        invariant i > 0 ==> old(millis) <= t && (rounds[0].raised > old(millis) || rounds[0].spurious)
      {
        if recent > t {
          return Some(recent);
        }
        Interfere(rounds[i].raised);
        var result := CompareExchangeWeak(recent, t, rounds[i].spurious);
        if result.Ok? {
          return Some(t);
        }
        recent := result.error;
      }
      r := None;
    }
  }
}
