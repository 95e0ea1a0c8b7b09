/**
 A sleep-lock and the sleep and wakeup it is built on, for any number of processes. Each step is one
 lock acquisition, one release, one switch or one assignment; everything else may interleave.
 */
module SleepLock {
  import opened Options

  /** Where a process is: in acquiresleep and the sleep within it, holding the lock, or in releasesleep and the wakeup within it. */
  datatype Pc =
    | Idle
    | Enter          // acquiresleep: acquire(&lk->lk)
    | Test           // while (lk->locked)
    | LockSelf       // sleep: acquire(&p->lock)
    | DropInner      // release(lk)
    | SetSleeping    // p->chan = chan; p->state = SLEEPING
    | Switch         // sched: the scheduler releases p->lock
    | Away           // waiting to be scheduled again
    | ClearChan      // p->chan = 0
    | DropSelf       // release(&p->lock)
    | Reenter        // acquire(lk)
    | Take           // lk->locked = 1
    | Leave          // release(&lk->lk)
    | Holding        // the caller's critical section
    | RelEnter       // releasesleep: acquire(&lk->lk)
    | Clear          // lk->locked = 0
    | Wake(j: nat)   // wakeup: acquire the lock of process j
    | Woken(j: nat)  // wake process j if it sleeps on the lock, and release its lock
    | RelLeave       // release(&lk->lk)

  datatype Run = Running | Runnable | Sleeping

  /**
   `inner` holds the spin-lock lk, `self[i]` the lock of process i; `chan[i]` says that i sleeps on the
   lock. `scan` is how far a wakeup in progress has come.
   */
  datatype State = State(
    inner: Option<nat>, locked: bool, pid: Option<nat>, scan: Option<nat>,
    pc: seq<Pc>, run: seq<Run>, chan: seq<bool>, self: seq<Option<nat>>)

  predicate Shaped(s: State) {
    |s.pc| == |s.run| == |s.chan| == |s.self|
  }

  /** `Go` is the next instruction of a process; `Kill` makes a sleeping process runnable whatever it waits for. */
  datatype Step = Go(i: nat) | Kill(i: nat)

  predicate Enabled(s: State, step: Step) {
    Shaped(s) && step.i < |s.pc| &&
    match step
    case Kill(i) => s.self[i].None?
    case Go(i) =>
      match s.pc[i]
      case Enter => s.inner.None?
      case Reenter => s.inner.None?
      case RelEnter => s.inner.None?
      case LockSelf => s.self[i].None?
      case Away => s.run[i].Runnable? && s.self[i].None?
      case Wake(j) => j < |s.pc| ==> s.self[j].None?
      case Woken(j) => j < |s.pc|
      case _ => true
  }

  // what the instruction `pc` of process `i` does

  function PcAfter(pc: Pc, locked: bool, n: nat): Pc {
    match pc
    case Idle => Enter
    case Enter => Test
    case Test => if locked then LockSelf else Take
    case LockSelf => DropInner
    case DropInner => SetSleeping
    case SetSleeping => Switch
    case Switch => Away
    case Away => ClearChan
    case ClearChan => DropSelf
    case DropSelf => Reenter
    case Reenter => Test
    case Take => Leave
    case Leave => Holding
    case Holding => RelEnter
    case RelEnter => Clear
    case Clear => Wake(0)
    case Wake(j) => if j < n then Woken(j) else RelLeave
    case Woken(j) => Wake(j + 1)
    case RelLeave => Idle
  }

  /** Who holds lk->lk. */
  function InnerAfter(pc: Pc, i: nat, inner: Option<nat>): Option<nat> {
    if pc.Enter? || pc.Reenter? || pc.RelEnter? then Some(i)
    else if pc.DropInner? || pc.Leave? || pc.RelLeave? then None
    else inner
  }

  /** Who has the sleep-lock, as lk->pid records it. */
  function PidAfter(pc: Pc, i: nat, pid: Option<nat>): Option<nat> {
    if pc.Take? then Some(i) else if pc.Clear? then None else pid
  }

  function LockedAfter(pc: Pc, locked: bool): bool {
    if pc.Take? then true else if pc.Clear? then false else locked
  }

  function ScanAfter(pc: Pc, n: nat, scan: Option<nat>): Option<nat> {
    match pc
    case Clear => Some(0)
    case Woken(j) => Some(j + 1)
    case Wake(j) => if j < n then scan else None
    case _ => scan
  }

  /** Who holds the lock of process `k`. */
  function SelfAfter(pc: Pc, i: nat, k: nat, self: Option<nat>): Option<nat> {
    if k == i && (pc.LockSelf? || pc.Away?) then Some(i)
    else if k == i && (pc.Switch? || pc.DropSelf?) then None
    else if pc == Wake(k) then Some(i)
    else if pc == Woken(k) then None
    else self
  }

  function RunAfter(pc: Pc, i: nat, k: nat, run: Run, chan: bool): Run {
    if k == i && pc.SetSleeping? then Sleeping
    else if k == i && pc.Away? then Running
    else if pc == Woken(k) && run.Sleeping? && chan then Runnable
    else run
  }

  function ChanAfter(pc: Pc, i: nat, k: nat, chan: bool): bool {
    if k == i && pc.SetSleeping? then true else if k == i && pc.ClearChan? then false else chan
  }

  function Next(s: State, step: Step): (t: State)
    requires Enabled(s, step)
  {
    var i, n := step.i, |s.pc|;
    var pc := s.pc[i];
    if step.Kill? then s.(run := s.run[i := if s.run[i].Sleeping? then Runnable else s.run[i]])
    else State(
      InnerAfter(pc, i, s.inner), LockedAfter(pc, s.locked), PidAfter(pc, i, s.pid), ScanAfter(pc, n, s.scan),
      s.pc[i := PcAfter(pc, s.locked, n)],
      seq(n, k requires 0 <= k < n => RunAfter(pc, i, k, s.run[k], s.chan[k])),
      seq(n, k requires 0 <= k < n => ChanAfter(pc, i, k, s.chan[k])),
      seq(n, k requires 0 <= k < n => SelfAfter(pc, i, k, s.self[k])))
  }

  // ---- the invariant ----

  /** The process holds lk->lk. */
  predicate Inside(pc: Pc) {
    pc.Test? || pc.LockSelf? || pc.DropInner? || pc.Take? || pc.Leave? || pc.Clear? || pc.Wake? || pc.Woken? || pc.RelLeave?
  }

  /** The process has the sleep-lock. */
  predicate Owns(pc: Pc) {
    pc.Leave? || pc.Holding? || pc.RelEnter? || pc.Clear?
  }

  /** The process holds its own lock. */
  predicate SelfLocked(pc: Pc) {
    pc.DropInner? || pc.SetSleeping? || pc.Switch? || pc.ClearChan? || pc.DropSelf?
  }

  /** The process is past the test and not yet switched back: it sleeps or is about to. */
  predicate Sleepy(pc: Pc, run: Run) {
    pc.SetSleeping? || ((pc.Switch? || pc.Away?) && run.Sleeping?)
  }

  /** What holds of process `i`; the last clause is that no wakeup is lost to it. */
  predicate Local(i: nat, pc: Pc, run: Run, chan: bool, self: Option<nat>, inner: Option<nat>,
                  pid: Option<nat>, locked: bool, scan: Option<nat>)
  {
    && (Inside(pc) <==> inner == Some(i))
    && (Owns(pc) <==> pid == Some(i))
    && (pc.Take? ==> !locked)
    && (pc.LockSelf? || pc.DropInner? ==> locked)
    && (pc.Switch? || pc.Away? || pc.ClearChan? ==> chan)
    && (run.Running? <==> !pc.Switch? && !pc.Away?)
    && (SelfLocked(pc) ==> self == Some(i))
    && (self == Some(i) ==> SelfLocked(pc) || pc == Woken(i))
    && (pc.Wake? || pc.Woken? ==> scan == Some(pc.j))
    && (Sleepy(pc, run) ==> locked || (scan.Some? && scan.value <= i))
  }

  predicate LocalAt(s: State, i: nat)
    requires Shaped(s) && i < |s.pc|
  {
    Local(i, s.pc[i], s.run[i], s.chan[i], s.self[i], s.inner, s.pid, s.locked, s.scan)
  }

  ghost predicate Everyone(s: State)
    requires Shaped(s)
  {
    forall i: nat :: i < |s.pc| ==> LocalAt(s, i)
  }

  /** The locks of processes are held by themselves or by the one that is waking them. */
  ghost predicate Waking(s: State)
    requires Shaped(s)
  {
    && (forall i: nat :: i < |s.pc| && s.pc[i].Woken? ==> s.pc[i].j < |s.pc| && s.self[s.pc[i].j] == Some(i))
    && (forall i: nat :: i < |s.pc| && s.self[i].Some? && s.self[i] != Some(i) ==> s.self[i].value < |s.pc| && s.pc[s.self[i].value] == Woken(i))
  }

  ghost predicate Global(s: State)
    requires Shaped(s)
  {
    && (s.locked <==> s.pid.Some?) && (s.pid.Some? ==> s.pid.value < |s.pc|) && (s.inner.Some? ==> s.inner.value < |s.pc|)
    && (s.scan.Some? ==> s.inner.Some? && (s.pc[s.inner.value].Wake? || s.pc[s.inner.value].Woken?))
  }

  ghost predicate Inv(s: State) {
    Shaped(s) && Everyone(s) && Waking(s) && Global(s)
  }

  // ---- every step keeps the invariant ----

  lemma NextAt(s: State, i: nat)
    requires Enabled(s, Go(i))
    ensures var t, pc, n := Next(s, Go(i)), s.pc[i], |s.pc|;
      && Shaped(t) && |t.pc| == n && t.inner == InnerAfter(pc, i, s.inner) && t.locked == LockedAfter(pc, s.locked)
      && t.pid == PidAfter(pc, i, s.pid) && t.scan == ScanAfter(pc, n, s.scan)
      && (forall k: nat :: k < n ==> t.pc[k] == if k == i then PcAfter(pc, s.locked, n) else s.pc[k])
      && (forall k: nat :: k < n ==> t.run[k] == RunAfter(pc, i, k, s.run[k], s.chan[k]))
      && (forall k: nat :: k < n ==> t.chan[k] == ChanAfter(pc, i, k, s.chan[k]))
      && (forall k: nat :: k < n ==> t.self[k] == SelfAfter(pc, i, k, s.self[k]))
  {
    hide PcAfter, RunAfter, ChanAfter, SelfAfter, InnerAfter, PidAfter, LockedAfter, ScanAfter;
  }

  /** What one process does is no concern of the others, unless it wakes them. */
  lemma LocalOther(i: nat, pc: Pc, selfI: Option<nat>, runI: Run, chanI: bool,
                   k: nat, pcK: Pc, run: Run, chan: bool, self: Option<nat>,
                   inner: Option<nat>, pid: Option<nat>, locked: bool, scan: Option<nat>, n: nat)
    requires k != i && k < n && (locked <==> pid.Some?)
    requires Local(i, pc, runI, chanI, selfI, inner, pid, locked, scan) && Local(k, pcK, run, chan, self, inner, pid, locked, scan)
    requires pc.Enter? || pc.Reenter? || pc.RelEnter? ==> inner.None?
    requires scan.Some? && inner != Some(i) ==> !Inside(pc)
    requires pc == Wake(k) ==> self.None?
    requires pc == Woken(k) ==> self == Some(i)
    ensures Local(k, pcK, RunAfter(pc, i, k, run, chan), ChanAfter(pc, i, k, chan), SelfAfter(pc, i, k, self),
                  InnerAfter(pc, i, inner), PidAfter(pc, i, pid), LockedAfter(pc, locked), ScanAfter(pc, n, scan))
  {
  }

  lemma LocalSelf(i: nat, pc: Pc, run: Run, chan: bool, self: Option<nat>, inner: Option<nat>,
                  pid: Option<nat>, locked: bool, scan: Option<nat>, n: nat)
    requires i < n && Local(i, pc, run, chan, self, inner, pid, locked, scan)
    requires (locked <==> pid.Some?) && (scan.Some? ==> pc.Wake? || pc.Woken? || inner != Some(i))
    requires pc.Enter? || pc.Reenter? || pc.RelEnter? ==> inner.None?
    requires scan.Some? ==> inner.Some?
    requires pc == Woken(i) ==> self == Some(i)
    ensures Local(i, PcAfter(pc, locked, n), RunAfter(pc, i, i, run, chan), ChanAfter(pc, i, i, chan), SelfAfter(pc, i, i, self),
                  InnerAfter(pc, i, inner), PidAfter(pc, i, pid), LockedAfter(pc, locked), ScanAfter(pc, n, scan))
  {
  }

  lemma EveryoneOk(s: State, i: nat)
    requires Inv(s) && Enabled(s, Go(i))
    ensures Shaped(Next(s, Go(i))) && Everyone(Next(s, Go(i)))
  {
    hide Local, Next;
    NextAt(s, i);
    assert LocalAt(s, i);
    var t, pc, n := Next(s, Go(i)), s.pc[i], |s.pc|;
    InnerScan(s, i);
    forall k: nat | k < n ensures LocalAt(t, k) {
      assert LocalAt(s, k);
      if k == i {
        LocalSelf(i, pc, s.run[i], s.chan[i], s.self[i], s.inner, s.pid, s.locked, s.scan, n);
      } else {
        LocalOther(i, pc, s.self[i], s.run[i], s.chan[i], k, s.pc[k], s.run[k], s.chan[k], s.self[k], s.inner, s.pid, s.locked, s.scan, n);
      }
    }
  }

  /** A scan is in progress only while its process holds lk->lk. */
  lemma InnerScan(s: State, i: nat)
    requires Inv(s) && i < |s.pc|
    ensures s.inner == Some(i) <==> Inside(s.pc[i])
    ensures s.scan.Some? && s.inner == Some(i) ==> s.pc[i].Wake? || s.pc[i].Woken?
  {
    assert LocalAt(s, i);
  }

  lemma WakerAt(s: State, i: nat, k: nat)
    requires Inv(s) && Enabled(s, Go(i)) && k < |s.pc|
    ensures var t := Next(s, Go(i)); Shaped(t) && |t.pc| == |s.pc| && (t.pc[k].Woken? ==> t.pc[k].j < |s.pc| && t.self[t.pc[k].j] == Some(k))
  {
    hide Next;
    NextAt(s, i);
    assert LocalAt(s, i) && LocalAt(s, k);
    hide Everyone;
    if k != i && s.pc[k].Woken? { assert s.self[s.pc[k].j] == Some(k); }
  }

  lemma WokenAt(s: State, i: nat, k: nat)
    requires Inv(s) && Enabled(s, Go(i)) && k < |s.pc|
    ensures var t := Next(s, Go(i));
      Shaped(t) && |t.pc| == |s.pc| && (t.self[k].Some? && t.self[k] != Some(k) ==> t.self[k].value < |s.pc| && t.pc[t.self[k].value] == Woken(k))
  {
    hide Next, Local, Everyone;
    NextAt(s, i);
  }

  lemma WakingOk(s: State, i: nat)
    requires Inv(s) && Enabled(s, Go(i))
    ensures Shaped(Next(s, Go(i))) && Waking(Next(s, Go(i)))
  {
    hide Next, Everyone, Global;
    NextAt(s, i);
    forall k: nat | k < |s.pc| ensures var t := Next(s, Go(i)); t.pc[k].Woken? ==> t.pc[k].j < |s.pc| && t.self[t.pc[k].j] == Some(k) {
      WakerAt(s, i, k);
    }
    forall k: nat | k < |s.pc|
      ensures var t := Next(s, Go(i)); t.self[k].Some? && t.self[k] != Some(k) ==> t.self[k].value < |s.pc| && t.pc[t.self[k].value] == Woken(k)
    {
      WokenAt(s, i, k);
    }
  }

  lemma GlobalOk(s: State, i: nat)
    requires Inv(s) && Enabled(s, Go(i))
    ensures Shaped(Next(s, Go(i))) && Global(Next(s, Go(i)))
  {
    hide Next, Waking;
    NextAt(s, i);
    assert LocalAt(s, i);
    if s.inner.Some? { assert LocalAt(s, s.inner.value); }
    hide Everyone;
  }

  lemma KillOk(s: State, i: nat)
    requires Inv(s) && Enabled(s, Kill(i))
    ensures Inv(Next(s, Kill(i)))
  {
    var t := Next(s, Kill(i));
    forall k: nat | k < |s.pc| ensures LocalAt(t, k) { assert LocalAt(s, k); }
    hide Everyone;
  }

  lemma NextOk(s: State, step: Step)
    requires Inv(s) && Enabled(s, step)
    ensures Inv(Next(s, step))
  {
    hide Inv, Next, Everyone, Waking, Global;
    match step
    case Kill(i) => KillOk(s, i);
    case Go(i) =>
      EveryoneOk(s, i);
      WakingOk(s, i);
      GlobalOk(s, i);
      InvFrom(Next(s, step));
  }

  lemma InvFrom(s: State)
    requires Shaped(s) && Everyone(s) && Waking(s) && Global(s)
    ensures Inv(s)
  {
  }

  // ---- runs ----

  /** All processes outside the lock. */
  predicate Init(s: State) {
    && Shaped(s) && s.inner.None? && !s.locked && s.pid.None? && s.scan.None?
    && forall i: nat :: i < |s.pc| ==> s.pc[i].Idle? && s.run[i].Running? && s.self[i].None?
  }

  ghost predicate IsRun(states: seq<State>, steps: seq<Step>) {
    |states| == |steps| + 1 && Init(states[0])
    && forall i :: 0 <= i < |steps| ==> Enabled(states[i], steps[i]) && states[i + 1] == Next(states[i], steps[i])
  }

  lemma {:induction false} RunInv(states: seq<State>, steps: seq<Step>, i: nat)
    requires IsRun(states, steps) && i <= |steps|
    ensures Inv(states[i])
  {
    if i > 0 {
      RunInv(states, steps, i - 1);
      hide Inv, Next;
      NextOk(states[i - 1], steps[i - 1]);
    }
  }

  /** In every state of every run, at most one process has the lock, and it is the one that lk->pid names. */
  lemma MutualExclusion(states: seq<State>, steps: seq<Step>, n: nat, i: nat, k: nat)
    requires IsRun(states, steps) && n <= |steps|
    requires i < |states[n].pc| && k < |states[n].pc| && Owns(states[n].pc[i]) && Owns(states[n].pc[k])
    ensures i == k && states[n].locked && states[n].pid == Some(i)
  {
    RunInv(states, steps, n);
    assert LocalAt(states[n], i) && LocalAt(states[n], k);
  }

  /** In every state of every run, a process that sleeps on the lock will be woken: the lock is held, or a scan is still to pass it. */
  lemma NoLostWakeup(states: seq<State>, steps: seq<Step>, n: nat, i: nat)
    requires IsRun(states, steps) && n <= |steps| && i < |states[n].pc|
    requires |states[n].run| == |states[n].pc| && states[n].run[i].Sleeping?
    ensures var s := states[n];
      || (s.locked && s.pid.Some? && s.pid.value < |s.pc| && Owns(s.pc[s.pid.value]))
      || (s.inner.Some? && s.inner.value < |s.pc| && (s.pc[s.inner.value].Wake? || s.pc[s.inner.value].Woken?) && s.pc[s.inner.value].j <= i)
  {
    RunInv(states, steps, n);
    var s := states[n];
    assert LocalAt(s, i);
    if s.pid.Some? { assert LocalAt(s, s.pid.value); }
    if s.inner.Some? { assert LocalAt(s, s.inner.value); }
  }

  /** A process whose lock someone holds: either it does so itself, or it is being woken. */
  lemma WhoHolds(s: State, j: nat)
    requires Inv(s) && j < |s.pc| && s.self[j].Some?
    ensures s.self[j] == Some(j) ==> SelfLocked(s.pc[j]) || s.inner == Some(j)
    ensures s.self[j] != Some(j) ==> s.inner == s.self[j] && s.self[j].value < |s.pc| && s.pc[s.self[j].value] == Woken(j)
  {
    assert LocalAt(s, j);
    if s.self[j] != Some(j) { assert s.self[j].value < |s.pc| && LocalAt(s, s.self[j].value); }
    hide Everyone;
  }

  /** Whenever some process is not idle, one of those can go on: there is no deadlock. */
  lemma NoDeadlock(s: State, i: nat) returns (k: nat)
    requires Inv(s) && i < |s.pc| && !s.pc[i].Idle?
    ensures k < |s.pc| && !s.pc[k].Idle? && Enabled(s, Go(k))
  {
    k := i;
    assert LocalAt(s, i);
    if s.self[i].Some? { WhoHolds(s, i); }
    if s.inner.Some? {
      k := s.inner.value;
      assert LocalAt(s, k);
      if s.self[k].Some? { WhoHolds(s, k); }
      if s.pc[k].Wake? && s.pc[k].j < |s.pc| && s.self[s.pc[k].j].Some? {
        var j := s.pc[k].j;
        WhoHolds(s, j);
        assert LocalAt(s, j);
        k := j;
      }
    } else if s.pc[i].Away? && s.run[i].Sleeping? {
      k := s.pid.value;
      assert LocalAt(s, k);
    }
    hide Everyone;
  }

  // ---- what a call goes through ----

  /** A process that wants the lock and does not have it yet. */
  predicate Wanting(pc: Pc) {
    pc.Enter? || pc.Test? || pc.LockSelf? || pc.DropInner? || pc.SetSleeping? || pc.Switch? || pc.Away? || pc.ClearChan?
    || pc.DropSelf? || pc.Reenter? || pc.Take? || pc.Leave?
  }

  lemma StepTowards(s: State, step: Step, i: nat)
    requires Enabled(s, step) && i < |s.pc|
    ensures var t := Next(s, step);
      && |t.pc| == |s.pc| && (step == Go(i) && s.pc[i].Idle? ==> Wanting(t.pc[i]))
      && (Wanting(s.pc[i]) ==> Wanting(t.pc[i]) || t.pc[i].Holding?)
  {
    if step.Go? { assert Next(s, step).pc == s.pc[step.i := PcAfter(s.pc[step.i], s.locked, |s.pc|)]; }
  }

  /** Between leaving its idle state and coming back to it, a process has the lock to itself. */
  lemma {:induction false} GetsLock(states: seq<State>, steps: seq<Step>, m: nat, n: nat, i: nat) returns (k: nat)
    requires IsRun(states, steps) && m < n <= |steps| && i < |states[m].pc| && states[m].pc[i].Idle? && steps[m] == Go(i)
    requires i < |states[n].pc| && states[n].pc[i].Idle?
    ensures m < k < n && i < |states[k].pc| && states[k].pc[i].Holding? && states[k].locked && states[k].pid == Some(i)
  {
    StepTowards(states[m], steps[m], i);
    k := m + 1;
    while k < n && !states[k].pc[i].Holding?
      invariant m < k <= n && i < |states[k].pc| && (Wanting(states[k].pc[i]) || states[k].pc[i].Holding?)
    {
      StepTowards(states[k], steps[k], i);
      k := k + 1;
    }
    MutualExclusion(states, steps, k, i, i);
  }

  /** A sleeper can be killed while no one holds its lock; it then goes on, whether or not the sleep-lock is free. */
  lemma KilledGoesOn(states: seq<State>, steps: seq<Step>, n: nat, i: nat)
    requires IsRun(states, steps) && n <= |steps| && i < |states[n].run| == |states[n].self|
    requires states[n].run[i].Sleeping? && states[n].self[i].None?
    ensures var s := states[n];
      && Enabled(s, Kill(i)) && Next(s, Kill(i)) == s.(run := s.run[i := Runnable])
      && Enabled(Next(s, Kill(i)), Go(i)) && Next(Next(s, Kill(i)), Go(i)).pc[i].ClearChan?
  {
    RunInv(states, steps, n);
    var s := states[n];
    assert LocalAt(s, i);
    hide Everyone, Waking;
  }

  /** `n` processes, of which `i` is at `pc` on its way to the free lock and the others are idle. */
  ghost function Entering(n: nat, i: nat, pc: Pc): State {
    var has := pc.Leave? || pc.Holding?;
    State(if pc.Test? || pc.Take? || pc.Leave? then Some(i) else None, has, if has then Some(i) else None, None,
          seq(n, k => if k == i then pc else Idle), seq(n, _ => Running), seq(n, _ => false), seq(n, _ => None))
  }

  lemma EnterStep(n: nat, i: nat, pc: Pc)
    requires i < n && (pc.Idle? || pc.Enter? || pc.Test? || pc.Take? || pc.Leave?)
    ensures var s := Entering(n, i, pc);
      Enabled(s, Go(i)) && Next(s, Go(i)) == Entering(n, i, PcAfter(pc, pc.Leave?, n))
  {
    var s := Entering(n, i, pc);
    assert s.pc[i] == pc;
    var t, u := Next(s, Go(i)), Entering(n, i, PcAfter(pc, pc.Leave?, n));
    assert t.pc == u.pc && t.run == u.run && t.chan == u.chan && t.self == u.self;
  }

  /** Any process can get the lock: acquiresleep takes five steps when it is free. */
  lemma LockReachable(n: nat, i: nat) returns (states: seq<State>, steps: seq<Step>)
    requires i < n
    ensures IsRun(states, steps) && |steps| == 5 && |states[5].pc| == n && states[5].pc[i].Holding?
  {
    var a, b, c := Entering(n, i, Idle), Entering(n, i, Enter), Entering(n, i, Test);
    var d, e, f := Entering(n, i, Take), Entering(n, i, Leave), Entering(n, i, Holding);
    assert Init(a) && |f.pc| == n && f.pc[i] == Holding;
    EnterStep(n, i, Idle);
    EnterStep(n, i, Enter);
    EnterStep(n, i, Test);
    EnterStep(n, i, Take);
    EnterStep(n, i, Leave);
    hide Init, Entering, Enabled, Next;
    states, steps := [a, b, c, d, e, f], [Go(i), Go(i), Go(i), Go(i), Go(i)];
  }
}
