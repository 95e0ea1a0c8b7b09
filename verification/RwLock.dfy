/**
 The reader-writer lock of OSTEP chapter 31 in which writers do not starve, for any number of threads.
 Each step is one semaphore operation or one statement on `read_count`.
 */
module RwLock {
  import opened Counting
  import opened Options

  /** The statements of the four functions, reader first; `Out` is between calls. */
  datatype Pc =
    | Out
    | AskTurn      // sem_wait(_wait_writer_lock)
    | AskGuard     // sem_wait(guard)
    | Add          // read_count += 1
    | IsFirst      // if (read_count == 1)
    | AskLock      //   sem_wait(_lock)
    | DropGuard    // sem_post(guard)
    | DropTurn     // sem_post(_wait_writer_lock)
    | Reading
    | AskGuard2    // sem_wait(guard)
    | Subtract     // read_count -= 1
    | IsLast       // if (read_count == 0)
    | DropLock     //   sem_post(_lock)
    | DropGuard2   // sem_post(guard)
    | WAskTurn     // sem_wait(_wait_writer_lock)
    | WAskLock     // sem_wait(_lock)
    | Writing
    | WDropLock    // sem_post(_lock)
    | WDropTurn    // sem_post(_wait_writer_lock)

  /** Who has passed `_lock`: a writer, or the readers together. */
  datatype Holder = Free | Readers | Writer(i: nat)

  /** The semaphores and the count; beside them who has passed each semaphore, and who is counted. */
  datatype State = State(
    count: int, guard: nat, lock: nat, turn: nat, pc: seq<Pc>,
    guardBy: Option<nat>, turnBy: Option<nat>, lockBy: Holder, counted: set<nat>)

  datatype Step = Read(i: nat) | Write(i: nat) | Go(i: nat)

  predicate Enabled(s: State, step: Step) {
    step.i < |s.pc| &&
    match step
    case Read(i) => s.pc[i].Out?
    case Write(i) => s.pc[i].Out?
    case Go(i) =>
      match s.pc[i]
      case Out => false
      case AskTurn => s.turn > 0
      case WAskTurn => s.turn > 0
      case AskGuard => s.guard > 0
      case AskGuard2 => s.guard > 0
      case AskLock => s.lock > 0
      case WAskLock => s.lock > 0
      case _ => true
  }

  function PcAfter(step: Step, pc: Pc, count: int): Pc {
    if step.Read? then AskTurn else if step.Write? then WAskTurn else
    match pc
    case Out => Out
    case AskTurn => AskGuard
    case AskGuard => Add
    case Add => IsFirst
    case IsFirst => if count == 1 then AskLock else DropGuard
    case AskLock => DropGuard
    case DropGuard => DropTurn
    case DropTurn => Reading
    case Reading => AskGuard2
    case AskGuard2 => Subtract
    case Subtract => IsLast
    case IsLast => if count == 0 then DropLock else DropGuard2
    case DropLock => DropGuard2
    case DropGuard2 => Out
    case WAskTurn => WAskLock
    case WAskLock => Writing
    case Writing => WDropLock
    case WDropLock => WDropTurn
    case WDropTurn => Out
  }

  function CountAfter(pc: Pc, count: int): int {
    if pc.Add? then count + 1 else if pc.Subtract? then count - 1 else count
  }

  /** A semaphore after the statement `pc`, which is a wait, a post or neither. */
  function SemAfter(wait: bool, post: bool, sem: nat): nat {
    if wait && sem > 0 then sem - 1 else if post then sem + 1 else sem
  }

  function ByAfter(wait: bool, post: bool, i: nat, who: Option<nat>): Option<nat> {
    if wait then Some(i) else if post then None else who
  }

  function LockByAfter(pc: Pc, i: nat, who: Holder): Holder {
    if pc.AskLock? then Readers else if pc.WAskLock? then Writer(i)
    else if pc.DropLock? || pc.WDropLock? then Free else who
  }

  function Next(s: State, step: Step): State
    requires Enabled(s, step)
  {
    var i := step.i;
    var pc := s.pc[i];
    State(
      CountAfter(pc, s.count),
      SemAfter(pc.AskGuard? || pc.AskGuard2?, pc.DropGuard? || pc.DropGuard2?, s.guard),
      SemAfter(pc.AskLock? || pc.WAskLock?, pc.DropLock? || pc.WDropLock?, s.lock),
      SemAfter(pc.AskTurn? || pc.WAskTurn?, pc.DropTurn? || pc.WDropTurn?, s.turn),
      s.pc[i := PcAfter(step, pc, s.count)],
      ByAfter(pc.AskGuard? || pc.AskGuard2?, pc.DropGuard? || pc.DropGuard2?, i, s.guardBy),
      ByAfter(pc.AskTurn? || pc.WAskTurn?, pc.DropTurn? || pc.WDropTurn?, i, s.turnBy),
      LockByAfter(pc, i, s.lockBy),
      if pc.Add? then s.counted + {i} else if pc.Subtract? then s.counted - {i} else s.counted)
  }

  // ---- the invariant ----

  predicate HasGuard(pc: Pc) {
    pc.Add? || pc.IsFirst? || pc.AskLock? || pc.DropGuard? || pc.Subtract? || pc.IsLast? || pc.DropLock? || pc.DropGuard2?
  }

  predicate HasTurn(pc: Pc) {
    pc.AskGuard? || pc.Add? || pc.IsFirst? || pc.AskLock? || pc.DropGuard? || pc.DropTurn?
    || pc.WAskLock? || pc.Writing? || pc.WDropLock? || pc.WDropTurn?
  }

  predicate Counts(pc: Pc) {
    pc.IsFirst? || pc.AskLock? || pc.DropGuard? || pc.DropTurn? || pc.Reading? || pc.AskGuard2? || pc.Subtract?
  }

  /** The readers hold `_lock` exactly when some are counted, except while one of them sees to it. */
  predicate LockSettled(pc: Pc, count: int, lockBy: Holder) {
    if pc.IsFirst? || pc.AskLock? then count >= 1 && (lockBy == Readers <==> count > 1) && (pc.AskLock? ==> count == 1)
    else if pc.IsLast? || pc.DropLock? then lockBy == Readers && (pc.DropLock? ==> count == 0)
    else lockBy == Readers <==> count > 0
  }

  predicate Local(i: nat, pc: Pc, guardBy: Option<nat>, turnBy: Option<nat>, lockBy: Holder, counted: bool) {
    && (HasGuard(pc) <==> guardBy == Some(i))
    && (HasTurn(pc) <==> turnBy == Some(i))
    && (pc.Writing? || pc.WDropLock? <==> lockBy == Writer(i))
    && (Counts(pc) <==> counted)
  }

  predicate LocalAt(s: State, i: nat)
    requires i < |s.pc|
  {
    Local(i, s.pc[i], s.guardBy, s.turnBy, s.lockBy, i in s.counted)
  }

  ghost predicate Global(s: State) {
    && s.guard == (if s.guardBy.None? then 1 else 0) && s.turn == (if s.turnBy.None? then 1 else 0)
    && s.lock == (if s.lockBy.Free? then 1 else 0) && s.count == |s.counted|
    && (s.guardBy.Some? ==> s.guardBy.value < |s.pc|) && (s.turnBy.Some? ==> s.turnBy.value < |s.pc|)
    && (s.lockBy.Writer? ==> s.lockBy.i < |s.pc|) && (forall i :: i in s.counted ==> i < |s.pc|)
    && LockSettled(if s.guardBy.Some? then s.pc[s.guardBy.value] else Out, s.count, s.lockBy)
  }

  ghost predicate Inv(s: State) {
    (forall i: nat :: i < |s.pc| ==> LocalAt(s, i)) && Global(s)
  }

  // ---- every step keeps it ----

  /** While a reader is entering, no writer has passed `_lock`. */
  lemma NoWriterInside(s: State, i: nat)
    requires Inv(s) && i < |s.pc| && HasTurn(s.pc[i]) && !s.pc[i].Writing? && !s.pc[i].WDropLock?
    ensures !s.lockBy.Writer?
  {
    assert LocalAt(s, i);
    var w := if s.lockBy.Writer? then s.lockBy.i else i;
    assert LocalAt(s, w);
  }

  lemma LocalsOk(s: State, step: Step)
    requires Inv(s) && Enabled(s, step)
    ensures var t := Next(s, step); |t.pc| == |s.pc| && forall k: nat :: k < |t.pc| ==> LocalAt(t, k)
  {
    var t, i := Next(s, step), step.i;
    assert LocalAt(s, i);
    if HasTurn(s.pc[i]) && !s.pc[i].Writing? && !s.pc[i].WDropLock? { NoWriterInside(s, i); }
    forall k: nat | k < |t.pc| ensures LocalAt(t, k) {
      assert LocalAt(s, k);
    }
  }

  lemma CountedOk(s: State, step: Step)
    requires Inv(s) && Enabled(s, step)
    ensures var t := Next(s, step); t.count == |t.counted| && forall i :: i in t.counted ==> i < |t.pc|
  {
    assert LocalAt(s, step.i);
  }

  lemma SettledOk(s: State, step: Step)
    requires Inv(s) && Enabled(s, step)
    ensures var t := Next(s, step);
      && (t.guardBy.Some? ==> t.guardBy.value < |t.pc|)
      && LockSettled(if t.guardBy.Some? then t.pc[t.guardBy.value] else Out, t.count, t.lockBy)
  {
    assert LocalAt(s, step.i);
    if HasTurn(s.pc[step.i]) && !s.pc[step.i].Writing? && !s.pc[step.i].WDropLock? { NoWriterInside(s, step.i); }
    if s.pc[step.i].Subtract? { assert step.i in s.counted; }
  }

  lemma SemsOk(s: State, step: Step)
    requires Inv(s) && Enabled(s, step)
    ensures var t := Next(s, step);
      && t.guard == (if t.guardBy.None? then 1 else 0) && t.turn == (if t.turnBy.None? then 1 else 0)
      && t.lock == (if t.lockBy.Free? then 1 else 0)
      && (t.turnBy.Some? ==> t.turnBy.value < |t.pc|) && (t.lockBy.Writer? ==> t.lockBy.i < |t.pc|)
  {
    assert LocalAt(s, step.i);
  }

  lemma NextOk(s: State, step: Step)
    requires Inv(s) && Enabled(s, step)
    ensures Inv(Next(s, step))
  {
    hide Next, LockSettled, Local;
    LocalsOk(s, step);
    CountedOk(s, step);
    SettledOk(s, step);
    SemsOk(s, step);
  }

  // ---- runs ----

  predicate Init(s: State) {
    && s.count == 0 && s.guard == s.lock == s.turn == 1 && (forall i :: 0 <= i < |s.pc| ==> s.pc[i].Out?)
    && s.guardBy.None? && s.turnBy.None? && s.lockBy.Free? && s.counted == {}
  }

  ghost predicate IsRun(states: seq<State>, steps: seq<Step>) {
    |states| == |steps| + 1 && Init(states[0])
    && forall i :: 0 <= i < |steps| ==> Enabled(states[i], steps[i]) && states[i + 1] == Next(states[i], steps[i])
  }

  lemma {:induction false} RunInv(states: seq<State>, steps: seq<Step>, i: nat)
    requires IsRun(states, steps) && i <= |steps|
    ensures Inv(states[i])
  {
    if i > 0 {
      RunInv(states, steps, i - 1);
      hide Inv, Next;
      NextOk(states[i - 1], steps[i - 1]);
    }
  }

  /** In every state of every run, a writer excludes readers and other writers. */
  lemma Exclusion(states: seq<State>, steps: seq<Step>, n: nat, i: nat, k: nat)
    requires IsRun(states, steps) && n <= |steps| && i < |states[n].pc| && k < |states[n].pc| && i != k && states[n].pc[i].Writing?
    ensures !states[n].pc[k].Writing? && !states[n].pc[k].Reading?
  {
    RunInv(states, steps, n);
    assert LocalAt(states[n], i) && LocalAt(states[n], k);
    CountedSome(states[n], k);
    GuardHolder(states[n], i);
  }

  lemma CountedSome(s: State, k: nat)
    requires Global(s)
    ensures k in s.counted ==> s.count >= 1
  {
    if k in s.counted { assert {k} <= s.counted; SubsetSize({k}, s.counted); }
  }

  /** While a writer writes, no reader is on its way in. */
  lemma GuardHolder(s: State, i: nat)
    requires Inv(s) && i < |s.pc| && s.pc[i].Writing?
    ensures s.count <= 0
  {
    assert LocalAt(s, i);
    var g := if s.guardBy.Some? then s.guardBy.value else i;
    assert LocalAt(s, g);
  }

  /** The first reader finds `_lock` free: it never waits there. */
  lemma FirstReaderNeverBlocks(states: seq<State>, steps: seq<Step>, n: nat, i: nat)
    requires IsRun(states, steps) && n <= |steps| && i < |states[n].pc| && states[n].pc[i].AskLock?
    ensures states[n].lock == 1 && Enabled(states[n], Go(i))
  {
    RunInv(states, steps, n);
    assert LocalAt(states[n], i);
    NoWriterInside(states[n], i);
  }

  /** While a writer holds `_wait_writer_lock`, the number of readers does not grow. */
  lemma ReadersDoNotGrow(states: seq<State>, steps: seq<Step>, n: nat, i: nat)
    requires IsRun(states, steps) && n < |steps| && i < |states[n].pc|
    requires states[n].pc[i].WAskLock? || states[n].pc[i].Writing? || states[n].pc[i].WDropLock? || states[n].pc[i].WDropTurn?
    ensures states[n + 1].count <= states[n].count
  {
    RunInv(states, steps, n);
    assert LocalAt(states[n], i) && LocalAt(states[n], steps[n].i);
  }

  /** As long as a thread is inside one of the functions, one of those can go on. */
  lemma NoDeadlock(s: State, i: nat) returns (k: nat)
    requires Inv(s) && i < |s.pc| && !s.pc[i].Out?
    ensures k < |s.pc| && !s.pc[k].Out? && Enabled(s, Go(k))
  {
    k := if s.guardBy.Some? then s.guardBy.value else if s.turnBy.Some? then s.turnBy.value else i;
    assert LocalAt(s, k);
    if s.pc[k].AskLock? { NoWriterInside(s, k); }
    if s.pc[k].WAskLock? && s.lock == 0 {
      NoWriterInside(s, k);
      k := AnyReader(s);
    }
  }

  /** When readers hold `_lock` and the guard is free, some reader can go on. */
  lemma AnyReader(s: State) returns (k: nat)
    requires Inv(s) && s.lockBy == Readers && s.guardBy.None?
    ensures k < |s.pc| && !s.pc[k].Out? && Enabled(s, Go(k))
  {
    assert |s.counted| > 0;
    k :| k in s.counted;
    assert LocalAt(s, k);
  }

  // ---- what a call goes through ----

  /** A thread that has entered as a writer and is not there yet. */
  predicate ToWrite(pc: Pc) {
    pc.WAskTurn? || pc.WAskLock?
  }

  /** A thread that has entered as a reader and is not there yet. */
  predicate ToRead(pc: Pc) {
    pc.AskTurn? || pc.AskGuard? || pc.Add? || pc.IsFirst? || pc.AskLock? || pc.DropGuard? || pc.DropTurn?
  }

  lemma StepTowards(s: State, step: Step, i: nat)
    requires Enabled(s, step) && i < |s.pc|
    ensures var t := Next(s, step);
      && |t.pc| == |s.pc|
      && (step == Write(i) ==> ToWrite(t.pc[i])) && (step == Read(i) ==> ToRead(t.pc[i]))
      && (ToWrite(s.pc[i]) ==> ToWrite(t.pc[i]) || t.pc[i].Writing?)
      && (ToRead(s.pc[i]) ==> ToRead(t.pc[i]) || t.pc[i].Reading?)
  {
  }

  /** Between entering and leaving, a writer writes. */
  lemma {:induction false} WriterWrites(states: seq<State>, steps: seq<Step>, m: nat, n: nat, i: nat) returns (k: nat)
    requires IsRun(states, steps) && m < n <= |steps| && i < |states[m].pc| && steps[m] == Write(i)
    requires i < |states[n].pc| && states[n].pc[i].Out?
    ensures m < k < n && i < |states[k].pc| && states[k].pc[i].Writing?
  {
    StepTowards(states[m], steps[m], i);
    k := m + 1;
    while k < n && !states[k].pc[i].Writing?
      invariant m < k <= n && i < |states[k].pc| && (ToWrite(states[k].pc[i]) || states[k].pc[i].Writing?)
    {
      StepTowards(states[k], steps[k], i);
      k := k + 1;
    }
  }

  /** Between entering and leaving, a reader reads. */
  lemma {:induction false} ReaderReads(states: seq<State>, steps: seq<Step>, m: nat, n: nat, i: nat) returns (k: nat)
    requires IsRun(states, steps) && m < n <= |steps| && i < |states[m].pc| && steps[m] == Read(i)
    requires i < |states[n].pc| && states[n].pc[i].Out?
    ensures m < k < n && i < |states[k].pc| && states[k].pc[i].Reading?
  {
    StepTowards(states[m], steps[m], i);
    k := m + 1;
    while k < n && !states[k].pc[i].Reading?
      invariant m < k <= n && i < |states[k].pc| && (ToRead(states[k].pc[i]) || states[k].pc[i].Reading?)
    {
      StepTowards(states[k], steps[k], i);
      k := k + 1;
    }
  }

  // ---- readers together, and a writer ----

  predicate LockTaken(pc: Pc) {
    pc.DropGuard? || pc.DropTurn? || pc.Reading?
  }

  function Row(n: nat, m: nat, pc: Pc): seq<Pc> {
    seq(n, k => if k < m then Reading else if k == m then pc else Out)
  }

  lemma RowIs(n: nat, m: nat, pc: Pc, x: Pc)
    requires m < n
    ensures |Row(n, m, pc)| == n && Row(n, m, pc)[m] == pc && Row(n, m, pc)[m := x] == Row(n, m, x)
    ensures Row(n, m, Reading) == Row(n, m + 1, Out)
  {
  }

  lemma OneMore(m: nat)
    ensures Below(m + 1) == Below(m) + {m}
  {
  }

  /** Of `n` threads, those below `m` read, and thread `m` is at `pc` on its way there. */
  ghost function Entering(n: nat, m: nat, pc: Pc): State {
    var c := if Counts(pc) then m + 1 else m;
    var held := m > 0 || LockTaken(pc);
    State(c, if HasGuard(pc) then 0 else 1, if held then 0 else 1, if HasTurn(pc) then 0 else 1,
          Row(n, m, pc),
          if HasGuard(pc) then Some(m) else None, if HasTurn(pc) then Some(m) else None,
          if held then Readers else Free, Below(c))
  }

  /** The statement after `pc` on the way in, when `m` readers are in already. */
  function NextIn(m: nat, pc: Pc): Pc {
    PcAfter(if pc.Out? then Read(m) else Go(m), pc, if Counts(pc) then m + 1 else m)
  }

  lemma EnterStep(n: nat, m: nat, pc: Pc)
    requires m < n && (pc.Out? || ToRead(pc)) && (pc.AskLock? ==> m == 0)
    ensures var s, step := Entering(n, m, pc), if pc.Out? then Read(m) else Go(m);
      Enabled(s, step) && Next(s, step) == Entering(n, m, NextIn(m, pc))
  {
    hide Row, Below;
    RowIs(n, m, pc, NextIn(m, pc));
    OneMore(m);
    match pc
    case Out =>
    case AskTurn =>
    case AskGuard =>
    case Add =>
    case IsFirst =>
    case AskLock =>
    case DropGuard =>
    case DropTurn =>
  }

  lemma NextInIs(m: nat, pc: Pc)
    requires (pc.Out? || ToRead(pc)) && (pc.AskLock? ==> m == 0)
    ensures (ToRead(NextIn(m, pc)) || NextIn(m, pc).Reading?) && (NextIn(m, pc).AskLock? ==> m == 0)
    ensures Steps(NextIn(m, pc)) < Steps(pc)
  {
  }

  lemma ExtendRun(states: seq<State>, steps: seq<Step>, s: State, step: Step)
    requires RunTo(states, steps, s) && Enabled(s, step)
    ensures RunTo(states + [Next(s, step)], steps + [step], Next(s, step))
  {
    hide Next, Enabled, Init;
  }

  ghost predicate RunTo(states: seq<State>, steps: seq<Step>, s: State) {
    IsRun(states, steps) && states[|steps|] == s
  }

  /** Thread `m` goes on from `pc` until it reads, with those below it reading already. */
  lemma {:induction false} EnterRun(n: nat, m: nat, pc: Pc, states: seq<State>, steps: seq<Step>) returns (ss: seq<State>, ts: seq<Step>)
    requires m < n && RunTo(states, steps, Entering(n, m, pc))
    requires pc.Out? || ToRead(pc) || pc.Reading?
    requires pc.AskLock? ==> m == 0
    ensures RunTo(ss, ts, Entering(n, m, Reading))
    decreases Steps(pc)
  {
    hide RunTo, Entering, Enabled, Next, NextIn;
    ss, ts := states, steps;
    if !pc.Reading? {
      var step := if pc.Out? then Read(m) else Go(m);
      EnterStep(n, m, pc);
      NextInIs(m, pc);
      ExtendRun(ss, ts, Entering(n, m, pc), step);
      ss, ts := EnterRun(n, m, NextIn(m, pc), ss + [Entering(n, m, NextIn(m, pc))], ts + [step]);
    }
  }

  function Steps(pc: Pc): nat {
    match pc
    case Out => 8
    case AskTurn => 7
    case AskGuard => 6
    case Add => 5
    case IsFirst => 4
    case AskLock => 3
    case DropGuard => 2
    case DropTurn => 1
    case _ => 0
  }

  lemma NoneIn(n: nat)
    ensures RunTo([Entering(n, 0, Out)], [], Entering(n, 0, Out))
  {
  }

  lemma OneIn(n: nat, m: nat)
    requires 0 < m <= n
    ensures Entering(n, m - 1, Reading) == Entering(n, m, Out)
  {
    hide Row, Below;
    RowIs(n, m - 1, Reading, Out);
  }

  lemma {:induction false} ReadersRun(n: nat, m: nat) returns (states: seq<State>, steps: seq<Step>)
    requires m <= n
    ensures RunTo(states, steps, Entering(n, m, Out))
  {
    hide RunTo, Entering;
    if m == 0 {
      NoneIn(n);
      states, steps := [Entering(n, 0, Out)], [];
    } else {
      states, steps := ReadersRun(n, m - 1);
      states, steps := EnterRun(n, m - 1, Out, states, steps);
      OneIn(n, m);
    }
  }

  /** Any number of readers can read at the same time. */
  lemma ReadersTogether(n: nat, m: nat) returns (states: seq<State>, steps: seq<Step>)
    requires m <= n
    ensures IsRun(states, steps) && |states[|steps|].pc| == n && forall i :: 0 <= i < m ==> states[|steps|].pc[i].Reading?
    ensures states[|steps|] == Entering(n, m, Out)
  {
    hide IsRun, Row;
    RowAll(n, m);
    states, steps := ReadersRun(n, m);
  }

  lemma RowAll(n: nat, m: nat)
    requires m <= n
    ensures |Row(n, m, Out)| == n && forall i :: 0 <= i < m ==> Row(n, m, Out)[i].Reading?
  {
  }
}
