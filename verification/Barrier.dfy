/**
 The semaphore barrier of OSTEP chapter 31, for any number of threads. Each step is one semaphore
 operation or one access to `n`, which is read outside the semaphore that guards its decrement.
 */
module Barrier {
  import opened Counting
  import opened Options

  datatype Pc =
    | Ask       // sem_wait(s2)
    | Subtract  // n -= 1
    | Release   // sem_post(s2)
    | Test      // if (n > 0)
    | Wait      //   sem_wait(s1)
    | Post      // sem_post(s1)
    | Done

  /** Beside the barrier: who is between the two operations on `s2`, who has arrived, who has waited on `s1`, and who came last. */
  datatype State = State(
    n: int, s1: nat, s2: nat, pc: seq<Pc>,
    holder: Option<nat>, arrived: set<nat>, waited: set<nat>, done: set<nat>, last: Option<nat>)

  predicate Enabled(s: State, i: nat) {
    i < |s.pc| && !s.pc[i].Done? && (s.pc[i].Ask? ==> s.s2 > 0) && (s.pc[i].Wait? ==> s.s1 > 0)
  }

  function PcAfter(pc: Pc, n: int): Pc {
    match pc
    case Ask => Subtract
    case Subtract => Release
    case Release => Test
    case Test => if n > 0 then Wait else Post
    case Wait => Post
    case Post => Done
    case Done => Done
  }

  function Next(s: State, i: nat): State
    requires Enabled(s, i)
  {
    var pc := s.pc[i];
    State(
      if pc.Subtract? then s.n - 1 else s.n,
      if pc.Wait? then s.s1 - 1 else if pc.Post? then s.s1 + 1 else s.s1,
      if pc.Ask? then s.s2 - 1 else if pc.Release? then s.s2 + 1 else s.s2,
      s.pc[i := PcAfter(pc, s.n)],
      if pc.Ask? then Some(i) else if pc.Release? then None else s.holder,
      if pc.Subtract? then s.arrived + {i} else s.arrived,
      if pc.Wait? then s.waited + {i} else s.waited,
      if pc.Post? then s.done + {i} else s.done,
      if pc.Subtract? && s.n == 1 then Some(i) else s.last)
  }

  // ---- the invariant ----

  predicate Local(i: nat, pc: Pc, holder: Option<nat>, arrived: bool, waited: bool, done: bool, n: int) {
    && (pc.Subtract? || pc.Release? <==> holder == Some(i))
    && (arrived <==> !pc.Ask? && !pc.Subtract?)
    && (waited ==> pc.Post? || pc.Done?)
    && (done <==> pc.Done?)
    && (pc.Post? || pc.Done? ==> n <= 0)
  }

  predicate LocalAt(s: State, i: nat)
    requires i < |s.pc|
  {
    Local(i, s.pc[i], s.holder, i in s.arrived, i in s.waited, i in s.done, s.n)
  }

  ghost predicate Global(s: State) {
    && s.s2 == (if s.holder.None? then 1 else 0) && (s.holder.Some? ==> s.holder.value < |s.pc|)
    && s.arrived <= Below(|s.pc|) && s.n == |s.pc| - |s.arrived| && s.waited <= Below(|s.pc|) && s.done <= Below(|s.pc|)
    && s.s1 == |s.done| - |s.waited|
    && (s.s1 > 0 ==> s.n <= 0)
    && (s.last.Some? <==> s.n <= 0)
    && (s.last.Some? ==> s.last.value < |s.pc| && s.last.value !in s.waited && s.last.value in s.arrived && !s.pc[s.last.value].Wait?)
  }

  ghost predicate Inv(s: State) {
    0 < |s.pc| && (forall i: nat :: i < |s.pc| ==> LocalAt(s, i)) && Global(s)
  }

  lemma LocalsOk(s: State, i: nat)
    requires Inv(s) && Enabled(s, i)
    ensures var t := Next(s, i); |t.pc| == |s.pc| && forall k: nat :: k < |t.pc| ==> LocalAt(t, k)
  {
    var t := Next(s, i);
    assert LocalAt(s, i);
    forall k: nat | k < |t.pc| ensures LocalAt(t, k) { assert LocalAt(s, k); }
  }

  lemma GlobalOk(s: State, i: nat)
    requires Inv(s) && Enabled(s, i)
    ensures Global(Next(s, i))
  {
    assert LocalAt(s, i);
    if s.last.Some? { assert LocalAt(s, s.last.value); }
    var t := Next(s, i);
    SubsetSize(s.arrived, Below(|s.pc|));
    SubsetSize(t.arrived, Below(|s.pc|));
  }

  lemma NextOk(s: State, i: nat)
    requires Inv(s) && Enabled(s, i)
    ensures Inv(Next(s, i))
  {
    LocalsOk(s, i);
    GlobalOk(s, i);
    hide Global, Local;
  }

  // ---- runs ----

  predicate Init(s: State) {
    && 0 < |s.pc| == s.n && s.s1 == 0 && s.s2 == 1 && (forall i :: 0 <= i < |s.pc| ==> s.pc[i].Ask?)
    && s.holder.None? && s.arrived == s.waited == s.done == {} && s.last.None?
  }

  ghost predicate IsRun(states: seq<State>, steps: seq<nat>) {
    |states| == |steps| + 1 && Init(states[0])
    && forall i :: 0 <= i < |steps| ==> Enabled(states[i], steps[i]) && states[i + 1] == Next(states[i], steps[i])
  }

  lemma {:induction false} RunInv(states: seq<State>, steps: seq<nat>, i: nat)
    requires IsRun(states, steps) && i <= |steps|
    ensures Inv(states[i])
  {
    if i > 0 {
      RunInv(states, steps, i - 1);
      hide Inv, Next;
      NextOk(states[i - 1], steps[i - 1]);
    }
  }

  /** In every state of every run, when a thread has left or is about to, all threads have subtracted themselves. */
  lemma NoEarlyLeave(states: seq<State>, steps: seq<nat>, n: nat, i: nat, k: nat)
    requires IsRun(states, steps) && n <= |steps| && i < |states[n].pc| && k < |states[n].pc|
    requires states[n].pc[i].Post? || states[n].pc[i].Done?
    ensures !states[n].pc[k].Ask? && !states[n].pc[k].Subtract?
  {
    RunInv(states, steps, n);
    var s := states[n];
    assert LocalAt(s, i) && LocalAt(s, k);
    SubsetSize(s.arrived, Below(|s.pc|));
    assert k in Below(|s.pc|);
  }

  /** As long as a thread has not left, one that has not left can go on. */
  lemma NoDeadlock(s: State, i: nat) returns (k: nat)
    requires Inv(s) && i < |s.pc| && !s.pc[i].Done?
    ensures k < |s.pc| && Enabled(s, k)
  {
    k := i;
    assert LocalAt(s, i);
    if s.pc[i].Ask? && s.holder.Some? {
      k := s.holder.value;
      assert LocalAt(s, k);
    } else if s.pc[i].Wait? && s.s1 == 0 {
      if s.last.None? {
        k := Missing(s);
        if s.pc[k].Ask? && s.holder.Some? {
          k := s.holder.value;
          assert LocalAt(s, k);
        }
      } else {
        k := Stuck(s);
      }
    }
  }

  /** Before the last arrival some thread has still to arrive. */
  lemma Missing(s: State) returns (k: nat)
    requires Inv(s) && s.last.None?
    ensures k < |s.pc| && (s.pc[k].Ask? || s.pc[k].Subtract?)
  {
    if Below(|s.pc|) <= s.arrived { SubsetSize(Below(|s.pc|), s.arrived); assert false; }
    k :| k in Below(|s.pc|) && k !in s.arrived;
    assert LocalAt(s, k);
  }

  /** The last to arrive does not wait, so not all that have left were let go by another. */
  lemma Stuck(s: State) returns (k: nat)
    requires Inv(s) && s.last.Some? && s.s1 == 0
    ensures k < |s.pc| && Enabled(s, k)
  {
    k := s.last.value;
    assert LocalAt(s, k);
    if s.pc[k].Done? {
      if s.waited <= s.done {
        assert s.waited <= s.done - {k};
        SubsetSize(s.waited, s.done - {k});
        assert false;
      }
      k :| k in s.waited && k !in s.done;
      assert k in Below(|s.pc|) && LocalAt(s, k);
    }
  }

  // ---- every run ends ----

  /** How many statements a thread has still to execute, at most. */
  function Rank(pc: Pc): nat {
    match pc
    case Ask => 6
    case Subtract => 5
    case Release => 4
    case Test => 3
    case Wait => 2
    case Post => 1
    case Done => 0
  }

  function Total(pc: seq<Pc>): nat {
    if pc == [] then 0 else Total(pc[..|pc| - 1]) + Rank(pc[|pc| - 1])
  }

  lemma {:induction false} TotalUpdate(pc: seq<Pc>, i: nat, x: Pc)
    requires i < |pc|
    ensures Total(pc[i := x]) + Rank(pc[i]) == Total(pc) + Rank(x)
  {
    var n := |pc| - 1;
    if i < n {
      assert pc[i := x][..n] == pc[..n][i := x];
      TotalUpdate(pc[..n], i, x);
    } else {
      assert pc[i := x][..n] == pc[..n];
    }
  }

  lemma {:induction false} TotalStart(pc: seq<Pc>)
    requires forall i :: 0 <= i < |pc| ==> pc[i].Ask?
    ensures Total(pc) == 6 * |pc|
  {
    if pc != [] { TotalStart(pc[..|pc| - 1]); }
  }

  /** A run that can go no further is one in which all threads have left the barrier, in at most six steps each. */
  lemma AllLeave(states: seq<State>, steps: seq<nat>)
    requires IsRun(states, steps) && forall i :: !Enabled(states[|steps|], i)
    ensures |steps| <= 6 * |states[0].pc| && |states[|steps|].pc| == |states[0].pc|
    ensures forall i :: 0 <= i < |states[0].pc| ==> states[|steps|].pc[i].Done?
  {
    RunInv(states, steps, |steps|);
    RunBounded(states, steps, |steps|);
    var s := states[|steps|];
    hide Inv;
    forall i: nat | i < |s.pc| ensures s.pc[i].Done? {
      if !s.pc[i].Done? { var k := NoDeadlock(s, i); }
    }
  }

  /** A run takes at most six steps for each thread. */
  lemma {:induction false} RunBounded(states: seq<State>, steps: seq<nat>, n: nat)
    requires IsRun(states, steps) && n <= |steps|
    ensures |states[n].pc| == |states[0].pc| && Total(states[n].pc) + n <= 6 * |states[0].pc|
  {
    if n == 0 {
      TotalStart(states[0].pc);
    } else {
      RunBounded(states, steps, n - 1);
      var s, i := states[n - 1], steps[n - 1];
      assert Enabled(s, i) && states[n] == Next(s, i);
      TotalUpdate(s.pc, i, PcAfter(s.pc[i], s.n));
    }
  }
}
