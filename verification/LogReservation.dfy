/**
 Log space. `begin_op` reserves MAXOPBLOCKS blocks for every outstanding operation, so if each
 operation keeps to that budget the log never overflows LOGSIZE. Whether `log_write` can still
 panic depends on the size of the log on disk.
 */
module LogReservation {
  import opened Counting
  import opened LogDisk
  import opened LogRuns

  /** The distinct blocks an operation has logged. */
  ghost function Logged(hist: seq<Write>, op: Op): set<nat> {
    set i | 0 <= i < |hist| && hist[i].op == op :: hist[i].block
  }

  /** One pair per outstanding operation and distinct block it has logged. */
  ghost function Spent(hist: seq<Write>, active: set<Op>): set<(Op, nat)> {
    set i | 0 <= i < |hist| && hist[i].op in active :: (hist[i].op, hist[i].block)
  }

  ghost predicate InBudget(s: State, w: Write) {
    |Logged(s.hist + [w], w.op)| <= MAXOPBLOCKS
  }

  /** A step in which no operation logs more than MAXOPBLOCKS distinct blocks. */
  ghost predicate BudgetNext(g: Geometry, s: State, s': State) {
    Next(g, s, s') && forall op :: Append(g, s, s', op) ==> InBudget(s, s.pending[op])
  }

  ghost predicate BudgetRun(g: Geometry, run: seq<State>) {
    && Run(g, run)
    && forall i :: 0 <= i < |run| - 1 ==> BudgetNext(g, run[i], run[i + 1])
  }

  ghost predicate Reserved(s: State) {
    && |s.lh| + MAXOPBLOCKS * |s.active| - |Spent(s.hist, s.active)| <= LOGSIZE
    && (forall op :: op in s.active ==> |Logged(s.hist, op)| <= MAXOPBLOCKS)
    && (forall i :: 0 <= i < |s.hist| && s.hist[i].op in s.active ==> s.hist[i].block in s.lh)
  }

  lemma LoggedMore(hist: seq<Write>, w: Write, op: Op)
    ensures Logged(hist + [w], op) == if w.op == op then Logged(hist, op) + {w.block} else Logged(hist, op)
  {
    var h := hist + [w];
    assert forall i :: 0 <= i < |hist| ==> h[i] == hist[i];
    assert h[|hist|] == w;
    forall b | b in Logged(hist, op) ensures b in Logged(h, op) {
      var i :| 0 <= i < |hist| && hist[i].op == op && hist[i].block == b;
      assert h[i].op == op && h[i].block == b;
    }
  }

  lemma SpentMore(hist: seq<Write>, w: Write, active: set<Op>)
    requires w.op in active
    ensures Spent(hist + [w], active) == Spent(hist, active) + {(w.op, w.block)}
  {
    var h := hist + [w];
    assert forall i :: 0 <= i < |hist| ==> h[i] == hist[i];
    assert h[|hist|] == w;
    forall p | p in Spent(hist, active) ensures p in Spent(h, active) {
      var i :| 0 <= i < |hist| && hist[i].op in active && (hist[i].op, hist[i].block) == p;
      assert h[i].op in active;
    }
  }

  /** Ending an operation gives back its pairs. */
  lemma SpentOwn(hist: seq<Write>, active: set<Op>, op: Op)
    requires op in active
    ensures |Spent(hist, active)| <= |Spent(hist, active - {op})| + |Logged(hist, op)|
  {
    var mine := Pairs(op, Logged(hist, op));
    PairSize(op, Logged(hist, op));
    forall p | p in Spent(hist, active) ensures p in Spent(hist, active - {op}) + mine {
      var i :| 0 <= i < |hist| && hist[i].op in active && (hist[i].op, hist[i].block) == p;
      if hist[i].op == op { assert hist[i].block in Logged(hist, op); }
    }
    SubsetSize(Spent(hist, active), Spent(hist, active - {op}) + mine);
  }

  ghost function Pairs(op: Op, blocks: set<nat>): set<(Op, nat)> {
    set b | b in blocks :: (op, b)
  }

  lemma {:induction false} PairSize(op: Op, blocks: set<nat>)
    ensures |Pairs(op, blocks)| == |blocks|
    decreases |blocks|
  {
    if blocks != {} {
      var x :| x in blocks;
      PairSize(op, blocks - {x});
      assert Pairs(op, blocks) == Pairs(op, blocks - {x}) + {(op, x)};
    }
  }

  lemma ReservedBegin(g: Geometry, s: State, s': State, op: Op)
    requires StagesOk(s) && Reserved(s) && Begin(g, s, s', op)
    ensures Reserved(s')
  {
    assert Spent(s'.hist, s'.active) == Spent(s.hist, s.active);
    assert Logged(s.hist, op) == {};
  }

  lemma ReservedWrite(g: Geometry, s: State, s': State, op: Op)
    requires StagesOk(s) && Reserved(s) && Append(g, s, s', op) && InBudget(s, s.pending[op])
    ensures Reserved(s')
  {
    var w := s.pending[op];
    SpentMore(s.hist, w, s.active);
    forall op | op in s'.active ensures |Logged(s'.hist, op)| <= MAXOPBLOCKS { LoggedMore(s.hist, w, op); }
    if w.block !in s.lh {
      assert (w.op, w.block) !in Spent(s.hist, s.active);
    } else {
      SubsetSize(Spent(s.hist, s.active), Spent(s'.hist, s'.active));
    }
  }

  lemma ReservedEnd(g: Geometry, s: State, s': State, op: Op)
    requires Reserved(s) && End(g, s, s', op)
    ensures Reserved(s')
  {
    SpentOwn(s.hist, s.active, op);
  }

  lemma ReservedNext(g: Geometry, s: State, s': State)
    requires StagesOk(s) && Reserved(s) && BudgetNext(g, s, s')
    ensures Reserved(s')
  {
    hide StagesOk, Reserved;
    if op :| Begin(g, s, s', op) { ReservedBegin(g, s, s', op); }
    else if w :| Check(g, s, s', w) { ReservedCheck(g, s, s', w); }
    else if op :| Append(g, s, s', op) { ReservedWrite(g, s, s', op); }
    else if op :| End(g, s, s', op) { ReservedEnd(g, s, s', op); }
    else { ReservedElse(g, s, s'); }
  }

  lemma ReservedCheck(g: Geometry, s: State, s': State, w: Write)
    requires Reserved(s) && Check(g, s, s', w)
    ensures Reserved(s')
  {
  }

  lemma ReservedElse(g: Geometry, s: State, s': State)
    requires StagesOk(s) && Reserved(s)
    requires CommitWrite(g, s, s') || FinishCommit(g, s, s') || Crash(g, s, s') || RecoverWrite(g, s, s') || FinishRecovery(g, s, s')
    ensures Reserved(s')
  {
    assert s'.active == {} && |s'.lh| <= |s.lh|;
    assert Spent(s'.hist, {}) == {};
    assert s.active == {} ==> Spent(s.hist, s.active) == {};
  }

  lemma {:induction false} SpentBound(hist: seq<Write>, active: set<Op>)
    requires forall op :: op in active ==> |Logged(hist, op)| <= MAXOPBLOCKS
    ensures |Spent(hist, active)| <= MAXOPBLOCKS * |active|
    decreases |active|
  {
    if active == {} {
      assert Spent(hist, active) == {};
    } else {
      var op :| op in active;
      SpentBound(hist, active - {op});
      SpentOwn(hist, active, op);
    }
  }

  lemma {:induction false} RunStages(g: Geometry, run: seq<State>, i: nat)
    requires Run(g, run) && i < |run|
    ensures StagesOk(run[i])
  {
    if i > 0 {
      hide StagesOk, Next;
      RunStages(g, run, i - 1);
      assert Next(g, run[i - 1], run[i - 1 + 1]);
      StagesNext(g, run[i - 1], run[i]);
    }
  }

  lemma {:induction false} ReservedRun(g: Geometry, run: seq<State>, i: nat)
    requires BudgetRun(g, run) && i < |run|
    ensures Reserved(run[i])
  {
    if i == 0 {
      assert Spent(run[0].hist, run[0].active) == {};
    } else {
      hide Reserved, StagesOk, Next;
      ReservedRun(g, run, i - 1);
      RunStages(g, run, i - 1);
      assert BudgetNext(g, run[i - 1], run[i - 1 + 1]);
      ReservedNext(g, run[i - 1], run[i]);
    }
  }

  /** In any interleaving, the logged blocks and the unused budgets together fit in LOGSIZE. */
  lemma Reservation(g: Geometry, run: seq<State>, i: nat)
    requires BudgetRun(g, run) && i < |run|
    ensures Reserved(run[i])
    ensures |run[i].lh| <= LOGSIZE
  {
    hide BudgetRun;
    ReservedRun(g, run, i);
    SpentBound(run[i].hist, run[i].active);
  }
}
