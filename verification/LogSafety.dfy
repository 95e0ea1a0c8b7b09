/**
 Crash safety of the log for operations that keep to their budget, in every interleaving, and the
 sizes of the log for which it holds. `log_write` looks at the length of the log before it takes the
 lock, so several operations can pass on the same length: on a log of 2 to LOGSIZE blocks they
 overrun it. On a larger log the reservations alone keep them within bounds.
 */
module LogSafety {
  import opened Counting
  import opened BufferCache
  import opened LogDisk
  import opened LogRuns
  import opened LogReservation

  /** No run of budgeted operations overruns the log: it holds all reservations, or nothing at all. */
  predicate Roomy(g: Geometry) {
    g.size > LOGSIZE || g.size == 1
  }

  /** A log of one block, the header, takes nothing. */
  lemma {:induction false} NothingLogged(g: Geometry, run: seq<State>, i: nat)
    requires Run(g, run) && i < |run| && g.size == 1
    ensures run[i].lh == [] && run[i].pending == map[]
  {
    if i > 0 {
      NothingLogged(g, run, i - 1);
      assert Next(g, run[i - 1], run[i - 1 + 1]);
      NothingStep(g, run[i - 1], run[i]);
    }
  }

  lemma NothingStep(g: Geometry, s: State, s': State)
    requires Next(g, s, s') && g.size == 1 && s.lh == [] && s.pending == map[]
    ensures s'.lh == [] && s'.pending == map[]
  {
    hide Addressable, CommitAddr, CommitValue, DiskOk, RecoverDisk, Head;
    assert TooBig(g, s);
  }

  lemma RunFits(g: Geometry, run: seq<State>, i: nat)
    requires BudgetRun(g, run) && i < |run| && Roomy(g)
    ensures Fits(g, run[i])
  {
    hide BudgetNext, Next;
    if g.size == 1 { NothingLogged(g, run, i); } else { Reservation(g, run, i); }
  }

  lemma {:induction false} RunInv(g: Geometry, run: seq<State>, i: nat)
    requires BudgetRun(g, run) && i < |run| && Roomy(g)
    ensures Inv(g, run[0].disk, run[i])
  {
    if i == 0 {
      InvInit(g, run[0]);
    } else {
      hide Inv, Next, BudgetNext;
      RunInv(g, run, i - 1);
      RunFits(g, run, i);
      assert Next(g, run[i - 1], run[i - 1 + 1]);
      InvNext(g, run[0].disk, run[i - 1], run[i]);
    }
  }

  /** Committed operations stay committed and lost ones lost. */
  lemma {:induction false} RunMonotone(g: Geometry, run: seq<State>, i: nat, j: nat)
    requires Run(g, run) && i <= j < |run|
    ensures run[i].committed <= run[j].committed && run[i].lost <= run[j].lost
    decreases j
  {
    hide StagesOk, Next;
    if i < j {
      RunMonotone(g, run, i, j - 1);
      RunStages(g, run, j - 1);
      assert Next(g, run[j - 1], run[j - 1 + 1]);
      StagesNext(g, run[j - 1], run[j]);
    }
  }

  /**
   In every state of every run, what recovery would leave is the effect of the committed
   operations. An operation counts whole or not at all, none still between `begin_op` and
   `end_op` counts, and none that ever committed is lost by later crashes.
   */
  lemma CrashSafety(g: Geometry, run: seq<State>, i: nat, j: nat)
    requires BudgetRun(g, run) && i <= j < |run| && Roomy(g)
    ensures Durable(g, run[0].disk, run[j])
    ensures run[j].active !! run[j].committed && run[j].lost !! run[j].committed
    ensures run[i].committed <= run[j].committed && run[i].lost <= run[j].lost
    ensures run[j].phase.Running? ==> SameHome(run[j].disk, Effect(run[0].disk, run[j].hist, run[j].committed), g)
    ensures run[j].phase.Running? && run[j].active == {} ==>
      SameHome(run[j].mem, Effect(run[0].disk, run[j].hist, run[j].committed), g)
  {
    hide Inv, Effect, Durable, Next, BudgetNext;
    RunInv(g, run, j);
    InvDurable(g, run[0].disk, run[j]);
    InvFacts(g, run[0].disk, run[j]);
    RunMonotone(g, run, i, j);
  }

  // ---- three operations fill the log, in turns ----

  /** A disk with an empty log and LOGSIZE home blocks behind it. */
  ghost predicate Ready(g: Geometry, d: Disk) {
    DiskOk(d, g) && Head(d, g) == [] && g.start + g.size + LOGSIZE <= |d|
  }

  /** Any block but `b`. */
  function Other(b: Block): (r: Block)
    ensures r != b
  {
    assert b[0 := b[0] + 1][0] != b[0];
    b[0 := b[0] + 1]
  }

  /** Whose turn it is: of three operations, one after the other. */
  function Turn(m: nat): Op { m % 3 }

  lemma Turns(m: nat)
    ensures Turn(m) < 3 && Turn(m) != Turn(m + 1) && Turn(0) == 0
  {
  }

  lemma TurnNumber(m: nat)
    requires m < LOGSIZE
    ensures m == 3 * (m / 3) + Turn(m) && m / 3 < MAXOPBLOCKS
  {
  }

  ghost function NthWrite(g: Geometry, d: Disk, m: nat): Write
    requires Ready(g, d)
  {
    Write(Turn(m), g.start + g.size + m, Other(d[g.start + g.size]))
  }

  /** `n` operations have begun. */
  ghost function Opened(d: Disk, n: nat): State {
    State(d, d, [], Running, Below(n), map[], {}, {}, {}, [])
  }

  /** Three operations have logged `m` blocks in all. */
  ghost function Filled(g: Geometry, d: Disk, m: nat): State
    requires Ready(g, d) && m <= LOGSIZE
  {
    if m == 0 then Opened(d, 3) else
    var s := Filled(g, d, m - 1);
    var w := NthWrite(g, d, m - 1);
    s.(mem := if w.block < |s.mem| then s.mem[w.block := w.data] else s.mem,
       lh := s.lh + [w.block], hist := s.hist + [w])
  }

  lemma {:induction false} FilledIs(g: Geometry, d: Disk, m: nat)
    requires Ready(g, d) && m <= LOGSIZE
    ensures var s := Filled(g, d, m);
      && s == State(d, s.mem, s.lh, Running, Below(3), map[], {}, {}, {}, s.hist) && |s.mem| == |d|
      && |s.lh| == m && (forall j :: 0 <= j < m ==> s.lh[j] == g.start + g.size + j)
      && |s.hist| == m && (forall j :: 0 <= j < m ==> s.hist[j] == NthWrite(g, d, j))
      && (forall b: nat :: g.start + g.size <= b < g.start + g.size + m ==> s.mem[b] == Other(d[g.start + g.size]))
  {
    if m > 0 { FilledIs(g, d, m - 1); }
  }

  lemma FilledNone(g: Geometry, d: Disk)
    requires Ready(g, d)
    ensures Filled(g, d, 0) == Opened(d, 3)
  {
  }

  lemma FilledMore(g: Geometry, d: Disk, m: nat)
    requires Ready(g, d) && m < LOGSIZE
    ensures var s, w := Filled(g, d, m), NthWrite(g, d, m);
      && w.block < |s.mem| && w.block !in s.lh
      && Filled(g, d, m + 1) == s.(mem := s.mem[w.block := w.data], lh := s.lh + [w.block], hist := s.hist + [w])
  {
    FilledIs(g, d, m);
  }

  /** `n` numbers from `lo` on, three apart. */
  ghost function Strided(lo: nat, n: nat): (r: set<nat>)
    ensures |r| <= n && forall k: nat :: k < n ==> lo + 3 * k in r
  {
    if n == 0 then {} else Strided(lo, n - 1) + {lo + 3 * (n - 1)}
  }

  ghost predicate InTurns(g: Geometry, d: Disk, hist: seq<Write>)
    requires Ready(g, d)
  {
    |hist| <= LOGSIZE && forall j :: 0 <= j < |hist| ==> hist[j] == NthWrite(g, d, j)
  }

  lemma InTurnsMore(g: Geometry, d: Disk, hist: seq<Write>)
    requires Ready(g, d) && InTurns(g, d, hist) && |hist| < LOGSIZE
    ensures InTurns(g, d, hist + [NthWrite(g, d, |hist|)])
  {
    hide Ready, NthWrite;
  }

  /** In turns, none of the three logs more than MAXOPBLOCKS blocks. */
  lemma TurnInBudget(g: Geometry, d: Disk, hist: seq<Write>, op: Op)
    requires Ready(g, d) && InTurns(g, d, hist)
    ensures |Logged(hist, op)| <= MAXOPBLOCKS
  {
    hide Turn, Other;
    var own := Strided(g.start + g.size + op, MAXOPBLOCKS);
    forall b | b in Logged(hist, op) ensures b in own {
      var i :| 0 <= i < |hist| && hist[i].op == op && hist[i].block == b;
      TurnNumber(i);
      assert g.start + g.size + op + 3 * (i / 3) in own;
    }
    SubsetSize(Logged(hist, op), own);
  }

  lemma FilledBudget(g: Geometry, d: Disk, m: nat)
    requires Ready(g, d) && m < LOGSIZE
    ensures InBudget(Filled(g, d, m), NthWrite(g, d, m))
  {
    FilledIs(g, d, m);
    assert InTurns(g, d, Filled(g, d, m).hist);
    assert NthWrite(g, d, m).op == Turn(m);
    hide Filled, Ready, InTurns, NthWrite, Turn;
    InTurnsMore(g, d, Filled(g, d, m).hist);
    TurnInBudget(g, d, Filled(g, d, m).hist + [NthWrite(g, d, m)], Turn(m));
  }

  // ---- runs, step by step ----

  ghost predicate RunTo(g: Geometry, d: Disk, run: seq<State>, s: State) {
    run != [] && BudgetRun(g, run) && run[0].disk == d && run[|run| - 1] == s
  }

  lemma Extend(g: Geometry, d: Disk, run: seq<State>, s: State, s': State)
    requires RunTo(g, d, run, s) && BudgetNext(g, s, s')
    ensures RunTo(g, d, run + [s'], s')
  {
    hide Init, Next;
    var more := run + [s'];
    forall i | 0 <= i < |run| ensures BudgetNext(g, more[i], more[i + 1]) {
      if i < |run| - 1 { assert BudgetNext(g, run[i], run[i + 1]); }
    }
  }

  /** A step that logs nothing is within every budget. */
  lemma QuietStep(g: Geometry, s: State, s': State)
    requires Next(g, s, s') && s'.hist == s.hist
    ensures BudgetNext(g, s, s')
  {
    hide Next;
    assert forall op :: Append(g, s, s', op) ==> |s'.hist| == |s.hist| + 1;
  }

  lemma AppendStep(g: Geometry, s: State, s': State, op: Op)
    requires Append(g, s, s', op) && InBudget(s, s.pending[op])
    ensures BudgetNext(g, s, s')
  {
    forall p | Append(g, s, s', p) ensures p == op { assert p in s.pending && p !in s'.pending; }
  }

  lemma {:induction false} OpeningRun(g: Geometry, d: Disk, n: nat) returns (run: seq<State>)
    requires DiskOk(d, g) && Head(d, g) == [] && n * MAXOPBLOCKS <= LOGSIZE
    ensures RunTo(g, d, run, Opened(d, n))
  {
    if n == 0 {
      run := [Opened(d, 0)];
    } else {
      run := OpeningRun(g, d, n - 1);
      assert Begin(g, Opened(d, n - 1), Opened(d, n), n - 1);
      QuietStep(g, Opened(d, n - 1), Opened(d, n));
      hide BudgetNext, RunTo;
      Extend(g, d, run, Opened(d, n - 1), Opened(d, n));
      run := run + [Opened(d, n)];
    }
  }

  /** `Filled(m)` with the writes of `pending` past the guard. */
  ghost function Passed(g: Geometry, d: Disk, m: nat, pending: map<Op, Write>): State
    requires Ready(g, d) && m <= LOGSIZE
  {
    Filled(g, d, m).(pending := pending)
  }

  /** One more call passes the guard. */
  lemma PassStep(g: Geometry, d: Disk, m: nat, pending: map<Op, Write>, w: Write)
    requires Ready(g, d) && m < LOGSIZE && m + 1 < g.size && w.op < 3 && w.op !in pending
    requires g.start + g.size <= w.block < |d| && forall op :: op in pending ==> pending[op].block != w.block
    ensures BudgetNext(g, Passed(g, d, m, pending), Passed(g, d, m, pending[w.op := w]))
  {
    FilledIs(g, d, m);
    hide Filled;
    assert Check(g, Passed(g, d, m, pending), Passed(g, d, m, pending[w.op := w]), w);
    QuietStep(g, Passed(g, d, m, pending), Passed(g, d, m, pending[w.op := w]));
  }

  /** The pending write whose turn it is is appended. */
  lemma TurnStep(g: Geometry, d: Disk, m: nat, pending: map<Op, Write>)
    requires Ready(g, d) && m < LOGSIZE
    requires Turn(m) in pending && pending[Turn(m)] == NthWrite(g, d, m)
    ensures BudgetNext(g, Passed(g, d, m, pending), Passed(g, d, m + 1, pending - {Turn(m)}))
  {
    FilledIs(g, d, m);
    FilledMore(g, d, m);
    FilledBudget(g, d, m);
    hide Filled;
    var s, s' := Passed(g, d, m, pending), Passed(g, d, m + 1, pending - {Turn(m)});
    assert s.pending[Turn(m)] == NthWrite(g, d, m);
    assert Append(g, s, s', Turn(m));
    AppendStep(g, s, s', Turn(m));
  }

  lemma PassedNone(g: Geometry, d: Disk, m: nat)
    requires Ready(g, d) && m <= LOGSIZE
    ensures Passed(g, d, m, map[]) == Filled(g, d, m)
  {
    FilledIs(g, d, m);
  }

  /** One more block is logged, guard and append one after the other. */
  lemma FillMore(g: Geometry, d: Disk, run: seq<State>, m: nat) returns (more: seq<State>)
    requires Ready(g, d) && m < LOGSIZE && m + 1 < g.size && RunTo(g, d, run, Filled(g, d, m))
    ensures RunTo(g, d, more, Filled(g, d, m + 1))
  {
    var at: map<Op, Write> := map[Turn(m) := NthWrite(g, d, m)];
    hide Turn;
    assert at - {Turn(m)} == map[];
    PassedNone(g, d, m + 1);
    FirstPass(g, d, m);
    TurnStep(g, d, m, at);
    hide Filled, Passed, BudgetNext, RunTo;
    Extend(g, d, run, Filled(g, d, m), Passed(g, d, m, at));
    Extend(g, d, run + [Passed(g, d, m, at)], Passed(g, d, m, at), Filled(g, d, m + 1));
    more := run + [Passed(g, d, m, at)] + [Filled(g, d, m + 1)];
  }

  /** The three operations begin and log `m` blocks, one call after the other. */
  lemma {:induction false} FillingRun(g: Geometry, d: Disk, m: nat) returns (run: seq<State>)
    requires Ready(g, d) && m <= LOGSIZE && m < g.size
    ensures RunTo(g, d, run, Filled(g, d, m))
  {
    if m == 0 {
      run := OpeningRun(g, d, 3);
      FilledNone(g, d);
    } else {
      hide Filled, RunTo;
      run := FillingRun(g, d, m - 1);
      run := FillMore(g, d, run, m - 1);
    }
  }

  // ---- an overrun ----

  /** Two calls pass the guard when the log has room for one block more. */
  ghost function Both(g: Geometry, d: Disk): (r: map<Op, Write>)
    requires Ready(g, d) && 2 <= g.size
    ensures Turn(g.size - 2) in r && r[Turn(g.size - 2)] == NthWrite(g, d, g.size - 2)
  {
    Turns(g.size - 2);
    map[Turn(g.size - 2) := NthWrite(g, d, g.size - 2), Turn(g.size - 1) := NthWrite(g, d, g.size - 1)]
  }

  lemma TwoPending(p: Op, q: Op, w: Write, v: Write)
    requires p != q
    ensures var one: map<Op, Write> := map[p := w];
      && one == map[][p := w] && q !in one && map[p := w, q := v] == one[q := v]
      && map[p := w, q := v] - {p} == map[q := v] && map[q := v] - {q} == map[]
  {
  }

  lemma FirstPass(g: Geometry, d: Disk, m: nat)
    requires Ready(g, d) && m < LOGSIZE && m + 1 < g.size
    ensures BudgetNext(g, Filled(g, d, m), Passed(g, d, m, map[Turn(m) := NthWrite(g, d, m)]))
  {
    var w := NthWrite(g, d, m);
    Turns(m);
    assert w.op == Turn(m) && g.start + g.size <= w.block < |d|;
    hide Filled, Passed, BudgetNext, Turn, Ready, NthWrite;
    PassedNone(g, d, m);
    TwoPending(w.op, w.op + 1, w, w);
    PassStep(g, d, m, map[], w);
  }

  lemma SecondPass(g: Geometry, d: Disk)
    requires Ready(g, d) && 2 <= g.size <= LOGSIZE
    ensures BudgetNext(g, Passed(g, d, g.size - 2, map[Turn(g.size - 2) := NthWrite(g, d, g.size - 2)]), Passed(g, d, g.size - 2, Both(g, d)))
  {
    var w, v := NthWrite(g, d, g.size - 2), NthWrite(g, d, g.size - 1);
    Turns(g.size - 2);
    Turns(g.size - 1);
    assert w.op == Turn(g.size - 2) && v.op == Turn(g.size - 1) && g.start + g.size <= w.block < v.block < |d|;
    TwoPending(w.op, v.op, w, v);
    hide Filled, Passed, BudgetNext, Turn, Ready, NthWrite;
    PassStep(g, d, g.size - 2, map[w.op := w], v);
  }

  lemma BothAppend(g: Geometry, d: Disk)
    requires Ready(g, d) && 2 <= g.size <= LOGSIZE
    ensures var last := map[Turn(g.size - 1) := NthWrite(g, d, g.size - 1)];
      && BudgetNext(g, Passed(g, d, g.size - 2, Both(g, d)), Passed(g, d, g.size - 1, last))
      && BudgetNext(g, Passed(g, d, g.size - 1, last), Filled(g, d, g.size))
  {
    var last: map<Op, Write> := map[Turn(g.size - 1) := NthWrite(g, d, g.size - 1)];
    Turns(g.size - 2);
    hide Turn, NthWrite, Filled, Passed, BudgetNext;
    TwoPending(Turn(g.size - 2), Turn(g.size - 1), NthWrite(g, d, g.size - 2), NthWrite(g, d, g.size - 1));
    hide Both;
    PassedNone(g, d, g.size);
    TurnStep(g, d, g.size - 2, Both(g, d));
    TurnStep(g, d, g.size - 1, last);
  }

  /** Both append: the copies need one block too many. */
  lemma OverfullRun(g: Geometry, d: Disk) returns (run: seq<State>)
    requires Ready(g, d) && 2 <= g.size <= LOGSIZE
    ensures RunTo(g, d, run, Filled(g, d, g.size))
  {
    hide Filled, Passed, BudgetNext, RunTo, Both;
    var m := g.size - 2;
    var w, v := NthWrite(g, d, m), NthWrite(g, d, m + 1);
    FirstPass(g, d, m);
    SecondPass(g, d);
    BothAppend(g, d);
    run := FillingRun(g, d, m);
    run := FourMore(g, d, run, Filled(g, d, m), Passed(g, d, m, map[Turn(m) := w]), Passed(g, d, m, Both(g, d)),
                    Passed(g, d, m + 1, map[Turn(m + 1) := v]), Filled(g, d, g.size));
  }

  lemma FourMore(g: Geometry, d: Disk, run: seq<State>, s: State, a: State, b: State, c: State, e: State) returns (more: seq<State>)
    requires RunTo(g, d, run, s)
    requires BudgetNext(g, s, a) && BudgetNext(g, a, b) && BudgetNext(g, b, c) && BudgetNext(g, c, e)
    ensures RunTo(g, d, more, e)
  {
    hide RunTo, BudgetNext;
    Extend(g, d, run, s, a);
    Extend(g, d, run + [a], a, b);
    Extend(g, d, run + [a] + [b], b, c);
    Extend(g, d, run + [a] + [b] + [c], c, e);
    more := run + [a] + [b] + [c] + [e];
  }

  /** `n` of the three have ended; the last one starts the commit. */
  ghost function Ended(g: Geometry, d: Disk, m: nat, n: nat): State
    requires Ready(g, d) && m <= LOGSIZE && n <= 3
  {
    Filled(g, d, m).(active := Below(3) - Below(n), ended := Below(n), phase := if n == 3 then Committing(d, 0) else Running)
  }

  lemma OneLess(n: nat)
    requires 0 < n <= 3
    ensures n - 1 in Below(3) - Below(n - 1) && Below(n) == Below(n - 1) + {n - 1}
    ensures Below(3) - Below(n) == Below(3) - Below(n - 1) - {n - 1}
    ensures n == 3 <==> Below(3) - Below(n - 1) == {n - 1}
  {
    var a, b, c := Below(n - 1), Below(n), Below(3);
    assert forall x: nat :: (x in a <==> x < n - 1) && (x in b <==> x < n) && (x in c <==> x < 3);
    hide Below;
    if n < 3 { assert n in c - a; }
  }

  lemma {:induction false} EndingRun(g: Geometry, d: Disk, run: seq<State>, m: nat, n: nat) returns (more: seq<State>)
    requires Ready(g, d) && m <= LOGSIZE && n <= 3 && RunTo(g, d, run, Filled(g, d, m))
    ensures RunTo(g, d, more, Ended(g, d, m, n))
  {
    FilledIs(g, d, m);
    hide Filled, RunTo;
    if n == 0 {
      assert Below(3) - Below(0) == Below(3) && Below(0) == {};
      assert Ended(g, d, m, 0) == Filled(g, d, m);
      more := run;
    } else {
      more := EndingRun(g, d, run, m, n - 1);
      OneLess(n);
      hide Below, Ready;
      var s, s' := Ended(g, d, m, n - 1), Ended(g, d, m, n);
      assert End(g, s, s', n - 1);
      QuietStep(g, s, s');
      Extend(g, d, more, s, s');
      more := more + [s'];
    }
  }

  /** The disk after `k` copies of the same block. */
  ghost function Copies(g: Geometry, d: Disk, k: nat): (r: Disk)
    requires Ready(g, d)
    ensures |r| == |d| && forall b: nat :: b < |d| ==> r[b] == CopiedTo(g, d, k, b)
  {
    seq(|d|, b requires 0 <= b < |d| => CopiedTo(g, d, k, b))
  }

  ghost function CopiedTo(g: Geometry, d: Disk, k: nat, b: nat): Block
    requires Ready(g, d) && b < |d|
  {
    if g.start < b <= g.start + k then Other(d[g.start + g.size]) else d[b]
  }

  lemma CopiesMore(g: Geometry, d: Disk, k: nat)
    requires Ready(g, d) && k < g.size
    ensures Copies(g, d, 0) == d
    ensures Copies(g, d, k + 1) == Copies(g, d, k)[g.start + k + 1 := Other(d[g.start + g.size])]
  {
    hide Other;
    assert g.start + k + 1 < |d|;
  }

  /** After `k` block writes of the commit of `Filled(g.size)`; write number `g.size` leaves the log. */
  ghost function Overrun(g: Geometry, d: Disk, k: nat): State
    requires Ready(g, d) && g.size <= LOGSIZE && k <= g.size
  {
    Ended(g, d, g.size, 3).(disk := Copies(g, d, k), phase := Committing(d, k))
  }

  lemma OverrunStep(g: Geometry, d: Disk, k: nat)
    requires Ready(g, d) && g.size <= LOGSIZE && k < g.size
    ensures BudgetNext(g, Overrun(g, d, k), Overrun(g, d, k + 1))
  {
    FilledIs(g, d, g.size);
    hide Filled;
    assert g.start + g.size + g.size <= |d|;
    hide Ready;
    var s, s' := Overrun(g, d, k), Overrun(g, d, k + 1);
    var a, data := g.start + k + 1, Other(d[g.start + g.size]);
    CopiesMore(g, d, k);
    hide Copies, Other, Turn, Below;
    assert s.lh[k] == g.start + g.size + k && s.mem[g.start + g.size + k] == data;
    assert Addressable(s.disk, g, s.lh) && CommitAddr(g, s.lh, k + 1) == a && CommitValue(s.disk, g, s.lh, s.mem, k + 1) == data;
    assert s'.mem == if InLog(g, a) then s.mem else s.mem[a := data];
    hide CommitAddr, CommitValue, Addressable;
    assert CommitWrite(g, s, s');
    QuietStep(g, s, s');
  }

  lemma OverrunStart(g: Geometry, d: Disk)
    requires Ready(g, d) && 2 <= g.size <= LOGSIZE
    ensures Overrun(g, d, 0) == Ended(g, d, g.size, 3)
  {
    FilledIs(g, d, g.size);
    CopiesMore(g, d, 0);
    hide Filled, Copies;
  }

  lemma {:induction false} OverrunRun(g: Geometry, d: Disk, k: nat) returns (run: seq<State>)
    requires Ready(g, d) && 2 <= g.size <= LOGSIZE && k <= g.size
    ensures RunTo(g, d, run, Overrun(g, d, k))
  {
    hide RunTo, BudgetNext, Overrun, Ended, Filled, Ready;
    if k == 0 {
      run := OverfullRun(g, d);
      run := EndingRun(g, d, run, g.size, 3);
      OverrunStart(g, d);
    } else {
      run := OverrunRun(g, d, k - 1);
      OverrunStep(g, d, k - 1);
      Extend(g, d, run, Overrun(g, d, k - 1), Overrun(g, d, k));
      run := run + [Overrun(g, d, k)];
    }
  }

  /**
   On a log of 2 to LOGSIZE blocks, three operations within their budgets can bring `commit` to
   write the block behind the log. It is a home block, and it changes before anything has
   committed: a crash at that point leaves it changed.
   */
  lemma OverrunReachable(g: Geometry, d: Disk) returns (run: seq<State>)
    requires Ready(g, d) && 2 <= g.size <= LOGSIZE
    ensures run != [] && BudgetRun(g, run) && run[0].disk == d
    ensures var s := run[|run| - 1];
      && s.committed == {} && |s.disk| == |d| && !InLog(g, g.start + g.size) && s.disk[g.start + g.size] != d[g.start + g.size]
      && !Durable(g, d, s)
  {
    run := OverrunRun(g, d, g.size);
    FilledIs(g, d, g.size);
    hide Filled, BudgetRun;
    var s := Overrun(g, d, g.size);
    EffectSame(d, s.hist, {}, {});
    assert DiskOk(s.disk, g) && Head(s.disk, g) == [];
    NoEffect(d, s.hist);
    assert Recovered(s.disk, g)[g.start + g.size] == s.disk[g.start + g.size];
  }

  lemma {:induction false} NoEffect(init: Disk, hist: seq<Write>)
    ensures Effect(init, hist, {}) == init
  {
    if hist != [] { NoEffect(init, hist[..|hist| - 1]); }
  }

  ghost predicate AlwaysDurable(g: Geometry, d: Disk) {
    forall run: seq<State>, i :: BudgetRun(g, run) && run[0].disk == d && 0 <= i < |run| ==> Durable(g, d, run[i])
  }

  /** The sizes of the log on which operations within their budgets are crash safe. */
  lemma SafetyIff(g: Geometry, d: Disk)
    requires Ready(g, d)
    ensures AlwaysDurable(g, d) <==> Roomy(g)
  {
    if Roomy(g) {
      forall run: seq<State>, i | BudgetRun(g, run) && run[0].disk == d && 0 <= i < |run| ensures Durable(g, d, run[i]) {
        CrashSafety(g, run, i, i);
      }
    } else {
      var run := OverrunReachable(g, d);
      hide BudgetRun, Durable;
      assert !Durable(g, d, run[|run| - 1]);
    }
  }

  // ---- "too big a transaction" ----

  /** An outstanding operation calls `log_write` for a block within its budget. */
  ghost predicate InBudgetCall(g: Geometry, s: State, w: Write) {
    Calls(g, s, w) && InBudget(s, w)
  }

  /** On a log of more than LOGSIZE blocks no call for a block that is not in the log panics. */
  lemma NoPanic(g: Geometry, run: seq<State>, i: nat, w: Write)
    requires BudgetRun(g, run) && i < |run| && InBudgetCall(g, run[i], w) && w.block !in run[i].lh && g.size > LOGSIZE
    ensures !TooBig(g, run[i])
  {
    hide BudgetRun;
    Reservation(g, run, i);
    var s := run[i];
    LoggedMore(s.hist, w, w.op);
    assert w.block !in Logged(s.hist, w.op);
    SpentOwn(s.hist, s.active, w.op);
    SpentBound(s.hist, s.active - {w.op});
  }

  /**
   On such a log a call within the budget panics exactly when the header is full, and then the
   block is in the log already: the guard comes before the search that would have found it.
   */
  lemma PanicExactly(g: Geometry, run: seq<State>, i: nat, w: Write)
    requires BudgetRun(g, run) && i < |run| && InBudgetCall(g, run[i], w) && g.size > LOGSIZE
    ensures TooBig(g, run[i]) <==> |run[i].lh| == LOGSIZE
    ensures TooBig(g, run[i]) ==> w.block in run[i].lh
  {
    hide BudgetRun, InBudgetCall;
    Reservation(g, run, i);
    if w.block !in run[i].lh { NoPanic(g, run, i, w); }
  }

  /** A run within budget that ends where a call within budget panics. */
  ghost predicate EndsInPanic(g: Geometry, d: Disk, run: seq<State>, w: Write) {
    && run != [] && BudgetRun(g, run) && run[0].disk == d
    && InBudgetCall(g, run[|run| - 1], w) && TooBig(g, run[|run| - 1])
  }

  /** The next write in turn is a call within budget, for a block that is not in the log. */
  lemma NextCall(g: Geometry, d: Disk, m: nat)
    requires Ready(g, d) && m < LOGSIZE
    ensures InBudgetCall(g, Filled(g, d, m), NthWrite(g, d, m)) && NthWrite(g, d, m).block !in Filled(g, d, m).lh
  {
    FilledIs(g, d, m);
    FilledBudget(g, d, m);
    hide Filled, InBudget;
  }

  /** So is logging the first block once more. */
  lemma CallAgain(g: Geometry, d: Disk, m: nat)
    requires Ready(g, d) && 0 < m <= LOGSIZE
    ensures InBudgetCall(g, Filled(g, d, m), NthWrite(g, d, 0))
  {
    FilledIs(g, d, m);
    Turns(0);
    hide Filled, Turn, Other;
    var s, w := Filled(g, d, m), NthWrite(g, d, 0);
    LoggedMore(s.hist, w, 0);
    assert s.hist[0].block in Logged(s.hist, 0);
    assert Logged(s.hist + [w], 0) == Logged(s.hist, 0);
    assert InTurns(g, d, s.hist);
    TurnInBudget(g, d, s.hist, 0);
  }

  lemma PanicOnNew(g: Geometry, d: Disk) returns (run: seq<State>, w: Write)
    requires Ready(g, d) && g.size <= LOGSIZE
    ensures EndsInPanic(g, d, run, w) && w.block !in run[|run| - 1].lh
  {
    FilledIs(g, d, g.size - 1);
    hide BudgetRun, InBudgetCall, Filled, NthWrite, Below;
    run := FillingRun(g, d, g.size - 1);
    w := NthWrite(g, d, g.size - 1);
    NextCall(g, d, g.size - 1);
  }

  lemma PanicOnOld(g: Geometry, d: Disk) returns (run: seq<State>, w: Write)
    requires Ready(g, d) && g.size > LOGSIZE
    ensures EndsInPanic(g, d, run, w) && w.block in run[|run| - 1].lh
  {
    FilledIs(g, d, LOGSIZE);
    assert Filled(g, d, LOGSIZE).lh[0] == NthWrite(g, d, 0).block;
    hide BudgetRun, InBudgetCall, Filled, NthWrite, Below, Ready;
    run := FillingRun(g, d, LOGSIZE);
    w := NthWrite(g, d, 0);
    CallAgain(g, d, LOGSIZE);
  }

  /** Whatever the size of the log, operations within their budgets can run into the panic. */
  lemma PanicReachable(g: Geometry, d: Disk) returns (run: seq<State>, w: Write)
    requires Ready(g, d)
    ensures EndsInPanic(g, d, run, w)
    ensures w.block in run[|run| - 1].lh <==> g.size > LOGSIZE
  {
    hide EndsInPanic, Ready;
    if g.size <= LOGSIZE { run, w := PanicOnNew(g, d); } else { run, w := PanicOnOld(g, d); }
  }

  /** A panic for a block that is not in the log is within reach exactly on a log of at most LOGSIZE blocks. */
  lemma NewBlockPanicIff(g: Geometry, d: Disk)
    requires Ready(g, d)
    ensures (exists run: seq<State>, w :: EndsInPanic(g, d, run, w) && w.block !in run[|run| - 1].lh) <==> g.size <= LOGSIZE
  {
    hide BudgetRun, InBudgetCall;
    if g.size <= LOGSIZE {
      var run, w := PanicOnNew(g, d);
    } else {
      forall run: seq<State>, w | EndsInPanic(g, d, run, w) ensures w.block in run[|run| - 1].lh {
        PanicExactly(g, run, |run| - 1, w);
      }
    }
  }

  // ---- a full header ----

  /**
   On a log of more than LOGSIZE blocks, operations within their budgets can end with NBUF blocks
   logged. All buffers are then pinned, and `commit` has none left for the log.
   */
  lemma AllBuffersPinned(g: Geometry, d: Disk) returns (run: seq<State>)
    requires Ready(g, d) && g.size > LOGSIZE
    ensures run != [] && BudgetRun(g, run) && run[0].disk == d
    ensures run[|run| - 1].phase == Committing(d, 0) && |run[|run| - 1].lh| == NBUF && LogOk(d, g, run[|run| - 1].lh)
  {
    run := FillingRun(g, d, LOGSIZE);
    run := EndingRun(g, d, run, LOGSIZE, 3);
    FilledIs(g, d, LOGSIZE);
    hide Filled, BudgetRun;
  }
}
