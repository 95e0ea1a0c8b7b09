/**
 The whole logging system as a state machine: operations of any number of processes interleave
 `begin_op`, `log_write` and `end_op`; the last one out commits, one block write per step; the
 machine may crash at any step, and recovery again proceeds one block write per step.

 `log_write` takes two steps. Its guard looks at the length of the log without the lock; the
 search and the append that follow hold it. The buffer is locked from before the change to its data
 until after the append, so that no other process sees the change earlier.
 */
module LogRuns {
  import opened BufferCache
  import opened LogDisk

  type Op = nat

  datatype Write = Write(op: Op, block: nat, data: Block)

  /** `d` is the disk when the commit or the recovery began, `k` the number of its writes done. */
  datatype Phase = Running | Committing(d: Disk, k: nat) | Recovering(d: Disk, k: nat)

  datatype State = State(
    disk: Disk,
    mem: Disk,             // what the processes see, through the cache
    lh: seq<nat>,          // the in-memory log header
    phase: Phase,
    active: set<Op>,       // between begin_op and end_op
    pending: map<Op, Write>,  // past the guard of log_write, not yet appended
    ended: set<Op>,        // ended, their group not yet committed
    committed: set<Op>,    // their group's header write is on the disk
    lost: set<Op>,         // undone by a crash
    hist: seq<Write>)      // every log_write so far

  function Absorb(lh: seq<nat>, b: nat): seq<nat> {
    if b in lh then lh else lh + [b]
  }

  // ---- steps ----

  ghost predicate Init(g: Geometry, s: State) {
    && DiskOk(s.disk, g) && Head(s.disk, g) == []
    && s == State(s.disk, s.disk, [], Running, {}, map[], {}, {}, {}, [])
  }

  ghost predicate Fresh(s: State, op: Op) {
    op !in s.active && op !in s.ended && op !in s.committed && op !in s.lost
  }

  ghost predicate Begin(g: Geometry, s: State, s': State, op: Op) {
    && s.phase.Running? && Fresh(s, op)
    && |s.lh| + (|s.active| + 1) * MAXOPBLOCKS <= LOGSIZE
    && s' == s.(active := s.active + {op})
  }

  /** `log_write` would panic with "too big a transaction". */
  predicate TooBig(g: Geometry, s: State) {
    |s.lh| >= LOGSIZE || |s.lh| >= g.size - 1
  }

  /** An outstanding operation calls `log_write` with the buffer of a home block, which it has locked. */
  ghost predicate Calls(g: Geometry, s: State, w: Write) {
    && s.phase.Running? && w.op in s.active && w.op !in s.pending && w.block < |s.mem| && !InLog(g, w.block)
    && forall op :: op in s.pending ==> s.pending[op].block != w.block
  }

  /** The guard of `log_write` lets the call through. */
  ghost predicate Check(g: Geometry, s: State, s': State, w: Write) {
    Calls(g, s, w) && !TooBig(g, s) && s' == s.(pending := s.pending[w.op := w])
  }

  /** The rest of `log_write`, under the lock. */
  ghost predicate Append(g: Geometry, s: State, s': State, op: Op) {
    && s.phase.Running? && op in s.pending && s.pending[op].block < |s.mem|
    && var w := s.pending[op];
    s' == s.(mem := s.mem[w.block := w.data], lh := Absorb(s.lh, w.block), hist := s.hist + [w], pending := s.pending - {op})
  }

  ghost predicate End(g: Geometry, s: State, s': State, op: Op) {
    && s.phase.Running? && op in s.active && op !in s.pending
    && s' == s.(active := s.active - {op}, ended := s.ended + {op},
                phase := if s.active == {op} then Committing(s.disk, 0) else Running)
  }

  /**
   One block write of `commit`, wherever it goes; a home block it goes to looks different at once.
   The header write is what commits the group.
   */
  ghost predicate CommitWrite(g: Geometry, s: State, s': State) {
    && s.phase.Committing? && s.lh != [] && s.phase.k < 2 * |s.lh| + 2
    && Addressable(s.disk, g, s.lh) && |s.mem| == |s.disk|
    && var a, header := CommitAddr(g, s.lh, s.phase.k + 1), s.phase.k == |s.lh|;
    && var v := CommitValue(s.disk, g, s.lh, s.mem, s.phase.k + 1);
    && s' == s.(disk := s.disk[a := v], mem := if InLog(g, a) then s.mem else s.mem[a := v],
                phase := Committing(s.phase.d, s.phase.k + 1),
                committed := if header then s.committed + s.ended else s.committed,
                ended := if header then {} else s.ended)
  }

  ghost predicate FinishCommit(g: Geometry, s: State, s': State) {
    && s.phase.Committing? && (s.lh == [] || s.phase.k == 2 * |s.lh| + 2)
    && s' == s.(phase := Running, lh := [], committed := s.committed + s.ended, ended := {})
  }

  /** Power is lost: only the disk survives, and the next boot starts recovering. */
  ghost predicate Crash(g: Geometry, s: State, s': State) {
    s' == s.(phase := Recovering(s.disk, 0), mem := s.disk, lh := [],
             active := {}, pending := map[], ended := {}, lost := s.lost + s.active + s.ended)
  }

  ghost predicate RecoverWrite(g: Geometry, s: State, s': State) {
    && s.phase.Recovering? && DiskOk(s.phase.d, g) && s.phase.k <= |Head(s.phase.d, g)|
    && s' == s.(disk := RecoverDisk(s.phase.d, g, s.phase.k + 1), phase := Recovering(s.phase.d, s.phase.k + 1))
  }

  ghost predicate FinishRecovery(g: Geometry, s: State, s': State) {
    && s.phase.Recovering? && DiskOk(s.phase.d, g) && s.phase.k == |Head(s.phase.d, g)| + 1
    && s' == s.(phase := Running, mem := s.disk)
  }

  ghost predicate Next(g: Geometry, s: State, s': State) {
    || (exists op :: Begin(g, s, s', op))
    || (exists w :: Check(g, s, s', w))
    || (exists op :: Append(g, s, s', op))
    || (exists op :: End(g, s, s', op))
    || CommitWrite(g, s, s')
    || FinishCommit(g, s, s')
    || Crash(g, s, s')
    || RecoverWrite(g, s, s')
    || FinishRecovery(g, s, s')
  }

  ghost predicate Run(g: Geometry, run: seq<State>) {
    && run != [] && Init(g, run[0])
    && forall i :: 0 <= i < |run| - 1 ==> Next(g, run[i], run[i + 1])
  }

  // ---- meaning ----

  /** The disk `init` after the writes of the operations in `keep`, in the order they were made. */
  ghost function Effect(init: Disk, hist: seq<Write>, keep: set<Op>): (r: Disk)
    ensures |r| == |init|
  {
    if hist == [] then init else
    var w := hist[|hist| - 1];
    var before := Effect(init, hist[..|hist| - 1], keep);
    if w.op in keep && w.block < |init| then before[w.block := w.data] else before
  }

  /** Only the operations that wrote something matter. */
  lemma {:induction false} EffectSame(init: Disk, hist: seq<Write>, a: set<Op>, b: set<Op>)
    requires forall i :: 0 <= i < |hist| ==> (hist[i].op in a <==> hist[i].op in b)
    ensures Effect(init, hist, a) == Effect(init, hist, b)
  {
    if hist != [] { EffectSame(init, hist[..|hist| - 1], a, b); }
  }

  lemma EffectMore(init: Disk, hist: seq<Write>, w: Write, keep: set<Op>)
    ensures Effect(init, hist + [w], keep) ==
      var before := Effect(init, hist, keep);
      if w.op in keep && w.block < |init| then before[w.block := w.data] else before
  {
    assert (hist + [w])[..|hist|] == hist;
  }

  // ---- the invariant ----

  /** An operation is in one of its stages only, and outside Running none is outstanding. */
  ghost predicate StagesOk(s: State) {
    && SetsOk(s)
    && (forall op :: op in s.pending ==> s.pending[op].op == op && op in s.active)
    && (!s.phase.Running? ==> s.active == {})
  }

  ghost predicate SetsOk(s: State) {
    && s.active !! s.ended && s.active !! s.committed && s.active !! s.lost
    && s.ended !! s.committed && s.ended !! s.lost && s.committed !! s.lost
    && (forall i :: 0 <= i < |s.hist| ==> !Fresh(s, s.hist[i].op))
  }

  ghost predicate PendingOk(g: Geometry, s: State) {
    forall op :: op in s.pending ==>
      s.pending[op].op == op && op in s.active && s.pending[op].block < |s.mem| && !InLog(g, s.pending[op].block)
  }

  /** Blocks outside the log that are not logged are the same in memory and on `d`. */
  ghost predicate Unlogged(g: Geometry, d: Disk, mem: Disk, lh: seq<nat>) {
    && |mem| == |d|
    && forall b: nat :: b < |d| && !InLog(g, b) && b !in lh ==> mem[b] == d[b]
  }

  ghost predicate RunningOk(g: Geometry, init: Disk, s: State) {
    && DiskOk(s.disk, g) && Head(s.disk, g) == [] && LogOk(s.disk, g, s.lh)
    && SameHome(s.disk, Effect(init, s.hist, s.committed), g)
    && SameHome(s.mem, Effect(init, s.hist, s.committed + s.active + s.ended), g)
    && Unlogged(g, s.disk, s.mem, s.lh)
    && (s.active == {} ==> s.ended == {} && s.lh == [])
  }

  ghost predicate CommittingOk(g: Geometry, init: Disk, s: State) {
    && s.phase.Committing? && s.active == {}
    && var d, k, n := s.phase.d, s.phase.k, |s.lh|;
    && DiskOk(d, g) && Head(d, g) == [] && LogOk(d, g, s.lh)
    && Unlogged(g, d, s.mem, s.lh)
    && k <= 2 * n + 2 && (s.lh == [] ==> k == 0)
    && s.disk == CommitDisk(d, g, s.lh, s.mem, k)
    && SameHome(s.mem, Effect(init, s.hist, s.committed + s.ended), g)
    && (k <= n ==> SameHome(d, Effect(init, s.hist, s.committed), g))
    && (k > n ==> s.ended == {})
  }

  ghost predicate RecoveringOk(g: Geometry, init: Disk, s: State) {
    && s.phase.Recovering? && s.active == {} && s.ended == {}
    && var d, k := s.phase.d, s.phase.k;
    && DiskOk(d, g) && k <= |Head(d, g)| + 1
    && s.disk == RecoverDisk(d, g, k)
    && SameHome(Recovered(d, g), Effect(init, s.hist, s.committed), g)
    && s.lh == []
  }

  ghost predicate Inv(g: Geometry, init: Disk, s: State) {
    && SetsOk(s) && PendingOk(g, s)
    && match s.phase
       case Running => RunningOk(g, init, s)
       case Committing(_, _) => CommittingOk(g, init, s)
       case Recovering(_, _) => RecoveringOk(g, init, s)
  }

  /** What recovery would leave now: the committed operations, whole, and nothing else. */
  ghost predicate Durable(g: Geometry, init: Disk, s: State) {
    && DiskOk(s.disk, g)
    && SameHome(Recovered(s.disk, g), Effect(init, s.hist, s.committed), g)
  }

  lemma InvDurable(g: Geometry, init: Disk, s: State)
    requires Inv(g, init, s)
    ensures Durable(g, init, s)
  {
    hide CommitDisk, RecoverDisk, Effect;
    match s.phase
    case Running =>
    case Committing(d, k) =>
      CommitAtomic(d, g, s.lh, s.mem, k);
      assert SameHome(Updated(d, s.lh, s.mem), s.mem, g);
      if k > |s.lh| { assert s.committed + s.ended == s.committed; }
    case Recovering(d, k) =>
      RecoverStable(d, g, k);
  }

  // ---- every step keeps it ----

  lemma InvInit(g: Geometry, s: State)
    requires Init(g, s)
    ensures Inv(g, s.disk, s)
  {
  }

  lemma InvBegin(g: Geometry, init: Disk, s: State, s': State, op: Op)
    requires Inv(g, init, s) && Begin(g, s, s', op)
    ensures Inv(g, init, s')
  {
    hide CommitDisk, RecoverDisk;
    EffectSame(init, s.hist, s.committed + s.active + s.ended, s'.committed + s'.active + s'.ended);
  }

  lemma InvCheck(g: Geometry, init: Disk, s: State, s': State, w: Write)
    requires Inv(g, init, s) && Check(g, s, s', w)
    ensures Inv(g, init, s')
  {
    hide CommitDisk, RecoverDisk, Effect;
  }

  /** The header has room for what is logged, and the log for the copies. */
  ghost predicate Fits(g: Geometry, s: State) {
    |s.lh| <= LOGSIZE && |s.lh| < g.size
  }

  lemma InvAppend(g: Geometry, init: Disk, s: State, s': State, op: Op)
    requires Inv(g, init, s) && Append(g, s, s', op) && Fits(g, s')
    ensures Inv(g, init, s')
  {
    hide CommitDisk, RecoverDisk, Effect;
    var w := s.pending[op];
    EffectMore(init, s.hist, w, s.committed);
    EffectMore(init, s.hist, w, s.committed + s.active + s.ended);
  }

  lemma InvEnd(g: Geometry, init: Disk, s: State, s': State, op: Op)
    requires Inv(g, init, s) && End(g, s, s', op)
    ensures Inv(g, init, s')
  {
    hide RecoverDisk, Effect;
    if s.active == {op} {
      assert s.committed + s.active + s.ended == s'.committed + s'.ended;
    } else {
      assert s.committed + s.active + s.ended == s'.committed + s'.active + s'.ended;
    }
  }

  lemma InvCommitWrite(g: Geometry, init: Disk, s: State, s': State)
    requires Inv(g, init, s) && CommitWrite(g, s, s')
    ensures Inv(g, init, s')
    ensures s'.mem == s.mem
  {
    hide CommitDisk, RecoverDisk, Effect;
    var d, k := s.phase.d, s.phase.k;
    CommitUnfold(d, g, s.lh, s.mem, k + 1);
    if k > |s.lh| && k < 2 * |s.lh| + 1 { InstallsMem(d, g, s.lh, s.mem, k + 1); }
    assert s'.mem == s.mem;
    assert s'.committed + s'.ended == s.committed + s.ended;
  }

  /** What `install_trans` puts in its place is what the processes see there already. */
  lemma InstallsMem(d: Disk, g: Geometry, blocks: seq<nat>, mem: Disk, k: nat)
    requires LogOk(d, g, blocks) && |mem| == |d| && |blocks| + 1 < k <= 2 * |blocks| + 1
    ensures CommitValue(CommitDisk(d, g, blocks, mem, k - 1), g, blocks, mem, k) == mem[CommitAddr(g, blocks, k)]
  {
    hide CommitDisk, CommitBlock;
    CommitCopy(d, g, blocks, mem, k - 1, k - |blocks| - 2);
  }

  lemma InvFinishCommit(g: Geometry, init: Disk, s: State, s': State)
    requires Inv(g, init, s) && FinishCommit(g, s, s')
    ensures Inv(g, init, s')
  {
    hide CommitDisk, RecoverDisk, Effect, CommitBlock;
    assert s'.committed + s'.active + s'.ended == s.committed + s.ended;
    assert s'.committed == s.committed + s.ended;
    if s.lh == [] {
      CommitStart(s.phase.d, g, s.lh, s.mem, g.start);
    } else {
      CommitDone(s.phase.d, g, s.lh, s.mem);
      assert SameHome(Updated(s.phase.d, s.lh, s.mem), s.mem, g);
    }
  }

  lemma InvCrash(g: Geometry, init: Disk, s: State, s': State)
    requires Inv(g, init, s) && Crash(g, s, s')
    ensures Inv(g, init, s')
  {
    InvDurable(g, init, s);
    hide CommitDisk, Effect;
  }

  lemma InvRecover(g: Geometry, init: Disk, s: State, s': State)
    requires Inv(g, init, s) && (RecoverWrite(g, s, s') || FinishRecovery(g, s, s'))
    ensures Inv(g, init, s')
  {
    hide CommitDisk, RecoverDisk, Effect;
    RecoverStable(s.phase.d, g, s.phase.k);
    RecoverHead(s.phase.d, g, s.phase.k);
    assert s'.committed + s'.active + s'.ended == s.committed;
  }

  lemma StagesBegin(g: Geometry, s: State, s': State, op: Op)
    requires StagesOk(s) && (Begin(g, s, s', op) || End(g, s, s', op))
    ensures StagesOk(s')
  {
  }

  lemma StagesWrite(g: Geometry, s: State, s': State, w: Write, op: Op)
    requires StagesOk(s) && (Check(g, s, s', w) || Append(g, s, s', op))
    ensures StagesOk(s')
  {
  }

  lemma StagesElse(g: Geometry, s: State, s': State)
    requires StagesOk(s)
    requires CommitWrite(g, s, s') || FinishCommit(g, s, s') || Crash(g, s, s') || RecoverWrite(g, s, s') || FinishRecovery(g, s, s')
    ensures StagesOk(s')
    ensures s.committed <= s'.committed && s.lost <= s'.lost
  {
    hide Addressable, CommitAddr, CommitValue, DiskOk, RecoverDisk, Head;
  }

  /** Whatever the size of the log. */
  lemma StagesNext(g: Geometry, s: State, s': State)
    requires StagesOk(s) && Next(g, s, s')
    ensures StagesOk(s')
    ensures s.committed <= s'.committed && s.lost <= s'.lost
  {
    hide StagesOk, CommitWrite, RecoverWrite, FinishRecovery, TooBig;
    if op :| Begin(g, s, s', op) { StagesBegin(g, s, s', op); }
    else if w :| Check(g, s, s', w) { StagesWrite(g, s, s', w, w.op); }
    else if op :| Append(g, s, s', op) { StagesWrite(g, s, s', s.pending[op], op); }
    else if op :| End(g, s, s', op) { StagesBegin(g, s, s', op); }
    else { StagesElse(g, s, s'); }
  }

  lemma InvNext(g: Geometry, init: Disk, s: State, s': State)
    requires Inv(g, init, s) && Next(g, s, s') && Fits(g, s')
    ensures Inv(g, init, s')
    ensures s.committed <= s'.committed && s.lost <= s'.lost && s.hist <= s'.hist
  {
    hide Inv, Effect;
    if op :| Begin(g, s, s', op) { InvBegin(g, init, s, s', op); }
    else if w :| Check(g, s, s', w) { InvCheck(g, init, s, s', w); }
    else if op :| Append(g, s, s', op) { InvAppend(g, init, s, s', op); }
    else if op :| End(g, s, s', op) { InvEnd(g, init, s, s', op); }
    else if CommitWrite(g, s, s') { InvCommitWrite(g, init, s, s'); }
    else if FinishCommit(g, s, s') { InvFinishCommit(g, init, s, s'); }
    else if Crash(g, s, s') { InvCrash(g, init, s, s'); }
    else { InvRecover(g, init, s, s'); }
  }

  lemma InvFacts(g: Geometry, init: Disk, s: State)
    requires Inv(g, init, s)
    ensures s.active !! s.committed && s.lost !! s.committed
    ensures s.phase.Running? ==> SameHome(s.disk, Effect(init, s.hist, s.committed), g)
    ensures s.phase.Running? && s.active == {} ==> SameHome(s.mem, Effect(init, s.hist, s.committed), g)
  {
    hide CommitDisk, RecoverDisk, Effect;
    if s.phase.Running? && s.active == {} { assert s.committed + s.active + s.ended == s.committed; }
  }
}
