/**
 `kfree` by several processes at once. It lowers the count under the lock, lets the lock go, and
 looks at the count again without it: two steps, between which others may lower it too. Here `n`
 processes drop one reference each to the same frame, and `extra` references stay.
 */
module KfreeRace {

  datatype Pc =
    | Before    // ref_cnt_decr
    | Dropped   // if (get_ref_cnt(pa) > 0)
    | Kept      // returned
    | Freed     // put the frame on the free list

  datatype State = State(refs: int, pc: seq<Pc>)

  predicate Enabled(s: State, i: nat) {
    i < |s.pc| && (s.pc[i].Before? || s.pc[i].Dropped?)
  }

  function Next(s: State, i: nat): State
    requires Enabled(s, i)
  {
    if s.pc[i].Before? then State(s.refs - 1, s.pc[i := Dropped])
    else State(s.refs, s.pc[i := if s.refs > 0 then Kept else Freed])
  }

  function Started(n: nat, extra: nat): State {
    State(n + extra, seq(n, _ => Before))
  }

  ghost predicate IsRun(states: seq<State>, steps: seq<nat>, n: nat, extra: nat) {
    && |states| == |steps| + 1 && states[0] == Started(n, extra)
    && forall i :: 0 <= i < |steps| ==> Enabled(states[i], steps[i]) && states[i + 1] == Next(states[i], steps[i])
  }

  /** A run to the end: every call has returned. */
  ghost predicate Complete(states: seq<State>, steps: seq<nat>, n: nat, extra: nat) {
    IsRun(states, steps, n, extra) && forall i :: !Enabled(states[|steps|], i)
  }

  function Count(pc: seq<Pc>, what: Pc): nat {
    if pc == [] then 0 else Count(pc[..|pc| - 1], what) + if pc[|pc| - 1] == what then 1 else 0
  }

  lemma {:induction false} CountUpdate(pc: seq<Pc>, i: nat, x: Pc, what: Pc)
    requires i < |pc|
    ensures Count(pc[i := x], what) + (if pc[i] == what then 1 else 0) == Count(pc, what) + if x == what then 1 else 0
  {
    var n := |pc| - 1;
    if i < n {
      assert pc[i := x][..n] == pc[..n][i := x];
      CountUpdate(pc[..n], i, x, what);
    } else {
      assert pc[i := x][..n] == pc[..n];
    }
  }

  lemma {:induction false} CountAll(n: nat, x: Pc, what: Pc)
    ensures Count(seq(n, _ => x), what) == if x == what then n else 0
  {
    if n > 0 {
      assert seq(n, _ => x)[..n - 1] == seq(n - 1, _ => x);
      CountAll(n - 1, x, what);
    }
  }

  lemma {:induction false} CountIn(pc: seq<Pc>, what: Pc)
    ensures Count(pc, what) > 0 <==> what in pc
    ensures Count(pc, what) <= |pc|
  {
    if pc != [] {
      CountIn(pc[..|pc| - 1], what);
      assert pc == pc[..|pc| - 1] + [pc[|pc| - 1]];
    }
  }

  // ---- what every run keeps ----

  ghost predicate Inv(s: State, n: nat, extra: nat) {
    && |s.pc| == n && s.refs == extra + Count(s.pc, Before)
    && (extra > 0 ==> Freed !in s.pc)
    // once the count is down to zero, one who lowered it has still to look, or has freed
    && (n > 0 && s.refs == 0 ==> exists i :: 0 <= i < n && (s.pc[i].Dropped? || s.pc[i].Freed?))
  }

  lemma InvStart(n: nat, extra: nat)
    ensures Inv(Started(n, extra), n, extra)
  {
    CountAll(n, Before, Before);
  }

  lemma InvNext(s: State, i: nat, n: nat, extra: nat)
    requires Inv(s, n, extra) && Enabled(s, i)
    ensures Inv(Next(s, i), n, extra)
  {
    var t := Next(s, i);
    CountUpdate(s.pc, i, t.pc[i], Before);
    hide Count;
    assert extra > 0 ==> s.refs > 0;
    if t.refs == 0 {
      if s.pc[i].Before? || s.refs == 0 {
        assert t.pc[i].Dropped? || t.pc[i].Freed?;
      }
    }
  }

  lemma {:induction false} RunInv(states: seq<State>, steps: seq<nat>, n: nat, extra: nat, k: nat)
    requires IsRun(states, steps, n, extra) && k <= |steps|
    ensures Inv(states[k], n, extra)
  {
    if k == 0 {
      InvStart(n, extra);
    } else {
      RunInv(states, steps, n, extra, k - 1);
      hide Inv, Next;
      InvNext(states[k - 1], steps[k - 1], n, extra);
    }
  }

  /** A frame that is still referenced is never freed, and one that is not is freed at least once. */
  lemma NeitherEarlyNorLost(states: seq<State>, steps: seq<nat>, n: nat, extra: nat)
    requires Complete(states, steps, n, extra)
    ensures var freed := Count(states[|steps|].pc, Freed);
      && (extra > 0 ==> freed == 0)
      && (extra == 0 && n > 0 ==> 1 <= freed <= n)
  {
    var s := states[|steps|];
    RunInv(states, steps, n, extra, |steps|);
    CountIn(s.pc, Freed);
    CountIn(s.pc, Before);
    hide Count;
    forall i: nat | i < |s.pc| ensures s.pc[i] != Before { assert s.pc[i].Before? ==> Enabled(s, i); }
    if extra == 0 && n > 0 {
      var i: nat :| i < n && (s.pc[i].Dropped? || s.pc[i].Freed?);
      assert s.pc[i].Dropped? ==> Enabled(s, i);
    }
  }

  // ---- all lower the count before any looks ----

  /** The first `d` have lowered the count, and the first `f` have seen it at zero. */
  function Piled(n: nat, d: nat, f: nat): State
    requires f <= d <= n
  {
    State(n - d, seq(n, i => if i < f then Freed else if i < d then Dropped else Before))
  }

  /** The run up to there. */
  lemma {:induction false} PiledRun(n: nat, d: nat, f: nat) returns (states: seq<State>, steps: seq<nat>)
    requires f <= d <= n && (f > 0 ==> d == n)
    ensures IsRun(states, steps, n, 0) && states[|steps|] == Piled(n, d, f)
    decreases d + f
  {
    if d == 0 {
      states, steps := [Piled(n, 0, 0)], [];
    } else {
      var before := if f > 0 then Piled(n, d, f - 1) else Piled(n, d - 1, 0);
      var i := if f > 0 then f - 1 else d - 1;
      if f > 0 { states, steps := PiledRun(n, d, f - 1); } else { states, steps := PiledRun(n, d - 1, 0); }
      assert Enabled(before, i) && Next(before, i).pc == Piled(n, d, f).pc;
      states, steps := states + [Piled(n, d, f)], steps + [i];
    }
  }

  /** The frame ends up on the free list as often as it should: once, or not at all while it is referenced. */
  ghost predicate FreedRight(n: nat, extra: nat) {
    forall states: seq<State>, steps :: Complete(states, steps, n, extra) ==>
      Count(states[|steps|].pc, Freed) == if extra == 0 && n > 0 then 1 else 0
  }

  /**
   That is so in every interleaving exactly when another reference stays or at most one process drops
   its own. When the last two references go at the same time, the frame can be put on the free list twice.
   */
  lemma FreedRightIff(n: nat, extra: nat)
    ensures FreedRight(n, extra) <==> extra > 0 || n <= 1
  {
    if extra > 0 || n <= 1 {
      forall states: seq<State>, steps | Complete(states, steps, n, extra)
        ensures Count(states[|steps|].pc, Freed) == if extra == 0 && n > 0 then 1 else 0
      {
        NeitherEarlyNorLost(states, steps, n, extra);
        RunInv(states, steps, n, extra, |steps|);
        CountIn(states[|steps|].pc, Freed);
      }
    } else {
      var states, steps := PiledRun(n, n, n);
      var s := states[|steps|];
      assert s.pc == seq(n, _ => Freed);
      CountAll(n, Freed, Freed);
      assert forall i :: !Enabled(s, i);
      assert Complete(states, steps, n, 0);
    }
  }
}
