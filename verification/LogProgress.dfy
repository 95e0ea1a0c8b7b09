/**
 The log gets somewhere: a commit that is not cut short makes all its block writes and returns, a
 recovery too, and an operation that keeps to its budget can begin, log its blocks, end and commit.
 */
module LogProgress {
  import opened BufferCache
  import opened LogDisk
  import opened LogRuns

  /** Steps of the machine that lead from `s` to `t`. */
  ghost predicate Path(g: Geometry, run: seq<State>, s: State, t: State) {
    && run != [] && run[0] == s && run[|run| - 1] == t
    && forall i :: 0 <= i < |run| - 1 ==> Next(g, run[i], run[i + 1])
  }

  lemma Stay(g: Geometry, s: State)
    ensures Path(g, [s], s, s)
  {
  }

  lemma Before(g: Geometry, s: State, s': State, run: seq<State>, t: State)
    requires Next(g, s, s') && Path(g, run, s', t)
    ensures Path(g, [s] + run, s, t)
  {
    hide Next;
    var more := [s] + run;
    forall i | 0 <= i < |more| - 1 ensures Next(g, more[i], more[i + 1]) {
      if i > 0 { assert Next(g, run[i - 1], run[i - 1 + 1]); }
    }
  }

  lemma Join(g: Geometry, run: seq<State>, s: State, t: State, run': seq<State>, u: State)
    requires Path(g, run, s, t) && Path(g, run', t, u)
    ensures Path(g, run + run'[1..], s, u)
  {
    hide Next;
    var more := run + run'[1..];
    forall i | 0 <= i < |more| - 1 ensures Next(g, more[i], more[i + 1]) {
      if i < |run| - 1 {
        assert Next(g, run[i], run[i + 1]);
      } else {
        assert Next(g, run'[i - |run| + 1], run'[i - |run| + 1 + 1]);
      }
    }
    assert more[|more| - 1] == if |run'| == 1 then run[|run| - 1] else run'[|run'| - 1];
  }

  // ---- commit ----

  /** The state after one more block write of the commit. */
  ghost function Written(g: Geometry, s: State): State
    requires s.phase.Committing? && s.phase.k < 2 * |s.lh| + 2 && Addressable(s.disk, g, s.lh) && |s.mem| == |s.disk|
  {
    var a, header := CommitAddr(g, s.lh, s.phase.k + 1), s.phase.k == |s.lh|;
    var v := CommitValue(s.disk, g, s.lh, s.mem, s.phase.k + 1);
    s.(disk := s.disk[a := v], mem := if InLog(g, a) then s.mem else s.mem[a := v], phase := Committing(s.phase.d, s.phase.k + 1),
       committed := if header then s.committed + s.ended else s.committed, ended := if header then {} else s.ended)
  }

  lemma CommitGoesOn(g: Geometry, init: Disk, s: State) returns (s': State)
    requires Inv(g, init, s) && s.phase.Committing? && s.lh != [] && s.phase.k < 2 * |s.lh| + 2
    ensures Next(g, s, s') && Inv(g, init, s')
    ensures s' == s.(disk := s'.disk, phase := Committing(s.phase.d, s.phase.k + 1), committed := s'.committed, ended := s'.ended)
    ensures s'.committed + s'.ended == s.committed + s.ended
  {
    hide CommitDisk, RecoverDisk, Effect;
    s' := Written(g, s);
    assert CommitWrite(g, s, s');
    InvCommitWrite(g, init, s, s');
    hide CommitWrite, CommitAddr, CommitValue, Inv;
  }

  lemma CommitReturns(g: Geometry, init: Disk, s: State) returns (s': State)
    requires Inv(g, init, s) && s.phase.Committing? && (s.lh == [] || s.phase.k == 2 * |s.lh| + 2)
    ensures Next(g, s, s') && Inv(g, init, s')
    ensures s' == s.(phase := Running, lh := [], committed := s.committed + s.ended, ended := {})
    ensures SameHome(s'.disk, s.mem, g)
  {
    hide CommitDisk, RecoverDisk, Effect;
    s' := s.(phase := Running, lh := [], committed := s.committed + s.ended, ended := {});
    assert FinishCommit(g, s, s');
    InvFinishCommit(g, init, s, s');
  }

  /**
   A commit that no crash cuts short makes the block writes it has left, one for each copy, one for each
   home block and two of the header, and returns. Then what the processes saw is on the disk, the log
   is empty, and every operation of the group counts as committed.
   */
  lemma {:induction false} CommitEnds(g: Geometry, init: Disk, s: State) returns (run: seq<State>, t: State)
    requires Inv(g, init, s) && s.phase.Committing?
    ensures Path(g, run, s, t) && Inv(g, init, t)
    ensures |run| == 2 + if s.lh == [] then 0 else 2 * |s.lh| + 2 - s.phase.k
    ensures t == s.(disk := t.disk, phase := Running, lh := [], committed := s.committed + s.ended, ended := {})
    ensures SameHome(t.disk, s.mem, g)
    decreases if s.phase.Committing? then 2 * |s.lh| + 2 - s.phase.k else 0
  {
    CommitBound(g, init, s);
    hide Inv, Next, SameHome;
    if s.lh == [] || s.phase.k == 2 * |s.lh| + 2 {
      t := CommitReturns(g, init, s);
      Stay(g, t);
      Before(g, s, t, [t], t);
      run := [s] + [t];
    } else {
      var s' := CommitGoesOn(g, init, s);
      run, t := CommitEnds(g, init, s');
      Before(g, s, s', run, t);
      run := [s] + run;
    }
  }

  lemma CommitBound(g: Geometry, init: Disk, s: State)
    requires Inv(g, init, s) && s.phase.Committing?
    ensures s.phase.k <= 2 * |s.lh| + 2
  {
  }

  // ---- recovery ----

  lemma RecoveryGoesOn(g: Geometry, init: Disk, s: State) returns (s': State)
    requires Inv(g, init, s) && s.phase.Recovering?
    ensures DiskOk(s.phase.d, g) && s.phase.k <= |Head(s.phase.d, g)| + 1
    ensures Next(g, s, s') && Inv(g, init, s')
    ensures s.phase.k <= |Head(s.phase.d, g)| ==> s' == s.(disk := s'.disk, phase := Recovering(s.phase.d, s.phase.k + 1))
    ensures s.phase.k == |Head(s.phase.d, g)| + 1 ==> s' == s.(phase := Running, mem := s.disk)
  {
    hide CommitDisk, RecoverDisk, Effect;
    var d, k := s.phase.d, s.phase.k;
    if k <= |Head(d, g)| {
      s' := s.(disk := RecoverDisk(d, g, k + 1), phase := Recovering(d, k + 1));
      assert RecoverWrite(g, s, s');
    } else {
      s' := s.(phase := Running, mem := s.disk);
      assert FinishRecovery(g, s, s');
    }
    InvRecover(g, init, s, s');
  }

  /** A recovery that no crash cuts short ends, with the effect of the committed operations on the disk and in the cache. */
  lemma {:induction false} RecoveryEnds(g: Geometry, init: Disk, s: State) returns (run: seq<State>, t: State)
    requires Inv(g, init, s) && s.phase.Recovering?
    ensures DiskOk(s.phase.d, g) && |run| + s.phase.k == |Head(s.phase.d, g)| + 3
    ensures Path(g, run, s, t) && Inv(g, init, t)
    ensures t == s.(disk := t.disk, phase := Running, mem := t.disk)
    ensures SameHome(t.disk, Effect(init, s.hist, s.committed), g)
    decreases if s.phase.Recovering? && DiskOk(s.phase.d, g) then |Head(s.phase.d, g)| + 2 - s.phase.k else 0
  {
    var s' := RecoveryGoesOn(g, init, s);
    hide Inv, Next, SameHome, Effect, DiskOk, Head;
    if s'.phase.Running? {
      t := s';
      Stay(g, t);
      Before(g, s, t, [t], t);
      run := [s] + [t];
      InvFacts(g, init, t);
    } else {
      run, t := RecoveryEnds(g, init, s');
      Before(g, s, s', run, t);
      run := [s] + run;
    }
  }

  /** Whenever the power fails, the next boot leads to a running system with exactly the committed operations. */
  lemma CrashEnds(g: Geometry, init: Disk, s: State) returns (run: seq<State>, t: State)
    requires Inv(g, init, s)
    ensures Path(g, run, s, t) && Inv(g, init, t) && t.phase.Running? && t.mem == t.disk && t.lh == [] && t.active == {}
    ensures t.committed == s.committed && t.lost == s.lost + s.active + s.ended
    ensures SameHome(t.disk, Effect(init, s.hist, s.committed), g)
  {
    var c := s.(phase := Recovering(s.disk, 0), mem := s.disk, lh := [],
                active := {}, pending := map[], ended := {}, lost := s.lost + s.active + s.ended);
    assert Crash(g, s, c);
    InvCrash(g, init, s, c);
    hide Inv, Next, Effect, SameHome;
    run, t := RecoveryEnds(g, init, c);
    assert Next(g, s, c) by { CrashIsNext(g, s, c); }
    Before(g, s, c, run, t);
    run := [s] + run;
  }

  lemma CrashIsNext(g: Geometry, s: State, s': State)
    requires Crash(g, s, s')
    ensures Next(g, s, s')
  {
  }

  // ---- an operation ----

  /** `mem` after the writes `ws`. */
  ghost function Applied(mem: Disk, ws: seq<Write>): (r: Disk)
    ensures |r| == |mem|
    decreases |ws|
  {
    if ws == [] then mem
    else Applied(if ws[0].block < |mem| then mem[ws[0].block := ws[0].data] else mem, ws[1..])
  }

  /** The writes are those of `op`, to home blocks. */
  ghost predicate Proper(g: Geometry, size: nat, op: Op, ws: seq<Write>) {
    forall i :: 0 <= i < |ws| ==> ws[i].op == op && ws[i].block < size && !InLog(g, ws[i].block)
  }

  /** Nothing is between guard and append, and `n` blocks more fit the log. */
  ghost predicate Room(g: Geometry, s: State, op: Op, n: nat) {
    s.phase.Running? && op in s.active && s.pending == map[] && |s.lh| + n <= LOGSIZE && |s.lh| + n < g.size
  }

  lemma WriteOne(g: Geometry, init: Disk, s: State, w: Write) returns (run: seq<State>, t: State)
    requires Inv(g, init, s) && Room(g, s, w.op, 1) && w.block < |s.mem| && !InLog(g, w.block)
    ensures Path(g, run, s, t) && Inv(g, init, t)
    ensures t == s.(mem := s.mem[w.block := w.data], lh := t.lh, hist := s.hist + [w]) && |t.lh| <= |s.lh| + 1
  {
    var c := s.(pending := map[w.op := w]);
    assert c == s.(pending := s.pending[w.op := w]);
    assert Check(g, s, c, w);
    InvCheck(g, init, s, c, w);
    t := c.(mem := s.mem[w.block := w.data], lh := Absorb(s.lh, w.block), hist := s.hist + [w], pending := map[]);
    assert c.pending - {w.op} == map[];
    assert Append(g, c, t, w.op);
    InvAppend(g, init, c, t, w.op);
    assert Next(g, s, c) && Next(g, c, t);
    hide Inv, Next;
    run := [s, c, t];
    assert forall i :: 0 <= i < |run| - 1 ==> Next(g, run[i], run[i + 1]);
  }

  lemma {:induction false} WriteAll(g: Geometry, init: Disk, s: State, op: Op, ws: seq<Write>) returns (run: seq<State>, t: State)
    requires Inv(g, init, s) && Room(g, s, op, |ws|) && Proper(g, |s.mem|, op, ws)
    ensures Path(g, run, s, t) && Inv(g, init, t)
    ensures t == s.(mem := Applied(s.mem, ws), lh := t.lh, hist := s.hist + ws)
    decreases |ws|
  {
    hide Inv, Next;
    if ws == [] {
      Stay(g, s);
      run, t := [s], s;
      assert s.hist + ws == s.hist;
    } else {
      var one, u := WriteOne(g, init, s, ws[0]);
      var rest;
      rest, t := WriteAll(g, init, u, op, ws[1..]);
      Join(g, one, s, u, rest, t);
      run := one + rest[1..];
      assert s.hist + [ws[0]] + ws[1..] == s.hist + ws;
    }
  }

  lemma BeginOne(g: Geometry, init: Disk, s: State, op: Op) returns (t: State)
    requires Inv(g, init, s) && s.phase.Running? && s.active == {} && Fresh(s, op)
    ensures Path(g, [s, t], s, t) && Inv(g, init, t) && t == s.(active := {op})
    ensures s.lh == [] && s.ended == {} && s.pending == map[] && DiskOk(s.disk, g) && |s.mem| == |s.disk|
  {
    hide CommitDisk, RecoverDisk, Effect;
    t := s.(active := {op});
    assert s.active + {op} == {op};
    assert Begin(g, s, t, op);
    InvBegin(g, init, s, t, op);
    assert forall o :: o !in s.pending;
    hide Inv;
  }

  lemma EndOne(g: Geometry, init: Disk, s: State, op: Op) returns (t: State)
    requires Inv(g, init, s) && s.phase.Running? && s.active == {op} && s.pending == map[] && s.ended == {}
    ensures Path(g, [s, t], s, t) && Inv(g, init, t) && t == s.(active := {}, ended := {op}, phase := Committing(s.disk, 0))
  {
    t := s.(active := {}, ended := {op}, phase := Committing(s.disk, 0));
    assert s.active - {op} == {} && s.ended + {op} == {op};
    assert End(g, s, t, op);
    InvEnd(g, init, s, t, op);
    hide Inv;
  }

  /**
   When no operation is outstanding, a new one with at most MAXOPBLOCKS writes, that the log has room for,
   can begin, make them, end and commit; then exactly its writes have been added to what is on the disk.
   */
  lemma OperationEnds(g: Geometry, init: Disk, s: State, op: Op, ws: seq<Write>) returns (run: seq<State>, t: State)
    requires Inv(g, init, s) && s.phase.Running? && s.active == {} && Fresh(s, op)
    requires |ws| <= MAXOPBLOCKS && |ws| < g.size && Proper(g, |s.mem|, op, ws)
    ensures Path(g, run, s, t) && Inv(g, init, t) && t.phase.Running? && t.active == {} && t.lh == []
    ensures t.committed == s.committed + {op} && t.lost == s.lost && t.hist == s.hist + ws
    ensures SameHome(t.disk, Applied(s.mem, ws), g) && t.mem == Applied(s.mem, ws)
  {
    var b := BeginOne(g, init, s, op);
    hide Inv, Next, SameHome, Applied;
    var more, w := WriteAll(g, init, b, op, ws);
    var e := EndOne(g, init, w, op);
    var last;
    last, t := CommitEnds(g, init, e);
    Join(g, [s, b], s, b, more, w);
    Join(g, [s, b] + more[1..], s, w, [w, e], e);
    Join(g, [s, b] + more[1..] + [w, e][1..], s, e, last, t);
    run := [s, b] + more[1..] + [w, e][1..] + last[1..];
  }
}
