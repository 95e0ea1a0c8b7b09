/**
 What running out of memory does for good: a failed `uvmcopy` keeps a frame from ever being free
 again, and `copyout` changes the memory of another process.
 */
module CowLeaks {
  import opened Counting
  import opened Cow
  import opened CowRuns

  /** The references of a frame that no entry accounts for. */
  ghost function Excess(s: State, f: nat): int
    requires f in s.frames
  {
    s.frames[f].refs - |Mappers(s.pt, f)|
  }

  /** `f` has excess references before and `more` of them after. */
  ghost predicate Grown(s: State, t: State, f: nat, more: int) {
    f in s.frames && f in t.frames && Excess(t, f) == Excess(s, f) + more
  }

  lemma KallocExcess(s: State, page: Page, f: nat)
    requires Inv(s) && s.free != [] && f in s.frames
    ensures f != s.free[0] && Grown(s, Kalloc(s, page), f, 0)
  {
  }

  lemma ShareExcess(s: State, h: nat, f: nat)
    requires h in s.frames && f in s.frames
    ensures Grown(s, Share(s, h), f, if h == f then 1 else 0)
  {
  }

  /** With a reference to spare, unmapping a page does not free its frame. */
  lemma UnmapExcess(s: State, a: Va, f: nat)
    requires a in s.pt && s.pt[a].frame in s.frames && f in s.frames && Excess(s, f) > 0
    ensures Grown(s, Unmap(s, a), f, 0)
  {
    MappersDrop(s.pt, a, f);
    if s.pt[a].frame == f { SubsetSize({a}, Mappers(s.pt, f)); }
  }

  lemma MapExcess(s: State, a: Va, l: Leaf, f: nat)
    requires a !in s.pt && f in s.frames
    ensures Grown(s, s.(pt := s.pt[a := l]), f, if l.frame == f then -1 else 0)
  {
    MappersSet(s.pt, a, l, f);
  }

  lemma FlagsExcess(s: State, a: Va, flags: Flags, f: nat)
    requires a in s.pt && f in s.frames
    ensures Grown(s, SetFlags(s, a, flags), f, 0)
  {
    MappersSet(s.pt, a, Leaf(s.pt[a].frame, flags), f);
  }

  lemma FaultExcess(s: State, a: Va, f: nat)
    requires Inv(s) && a in s.pt && s.free != [] && f in s.frames && Excess(s, f) > 0
    ensures Grown(s, Fault(s, a), f, 0)
  {
    var l := s.pt[a];
    var page := s.frames[l.frame].page;
    KallocOk(s, page);
    KallocExcess(s, page, f);
    var k := Kalloc(s, page);
    UnmapExcess(k, a, f);
    MapExcess(Unmap(k, a), a, Leaf(s.free[0], l.flags.(w := true)), f);
  }

  lemma WriteExcess(s: State, a: Va, off: nat, data: seq<Byte>, f: nat)
    requires a in s.pt && s.pt[a].frame in s.frames && off + |data| <= PGSIZE && f in s.frames
    ensures Grown(s, WriteAt(s, a, off, data), f, 0)
  {
  }

  lemma WritesExcess(s: State, a: Va, off: nat, data: seq<Byte>, f: nat)
    requires Inv(s) && off + |data| <= PGSIZE && f in s.frames && Excess(s, f) > 0
    ensures Grown(s, Store(s, a, off, data), f, 0) && Grown(s, Copyout(s, a, off, data), f, 0)
  {
    if a in s.pt && s.pt[a].flags.u {
      WriteExcess(s, a, off, data, f);
      if s.pt[a].flags.cow && s.free != [] {
        FaultOk(s, a);
        FaultExcess(s, a, f);
        WriteExcess(Fault(s, a), a, off, data, f);
      }
    }
    hide Inv, Fault, WriteAt, Excess;
  }

  lemma ForkPageExcess(eager: bool, s: State, p: Va, c: Va, f: nat)
    requires Inv(s) && p in s.pt && c !in s.pt && (eager ==> s.free != []) && f in s.frames
    ensures Grown(s, ForkPage(eager, s, p, c), f, 0)
  {
    if eager {
      var page := s.frames[s.pt[p].frame].page;
      KallocExcess(s, page, f);
      MapExcess(Kalloc(s, page), c, Leaf(s.free[0], s.pt[p].flags), f);
    } else {
      var l := Leaf(s.pt[p].frame, Cowed(s.pt[p].flags));
      var t := SetFlags(s, p, l.flags);
      FlagsExcess(s, p, l.flags, f);
      ShareExcess(t, l.frame, f);
      MapExcess(Share(t, l.frame), c, l, f);
      assert s.pt[c := l][p := l] == s.pt[p := l][c := l];
      assert ForkPage(eager, s, p, c) == Share(t, l.frame).(pt := t.pt[c := l]);
    }
  }

  lemma {:induction false} ForkExcess(eager: bool, s: State, p: nat, c: nat, n: nat, f: nat)
    requires Inv(s) && CanFork(eager, s, p, c, n) && f in s.frames
    ensures Grown(s, ForkPages(eager, s, p, c, n), f, 0)
  {
    hide Inv, ForkPage, Excess, ViewOf, SpecFork, Owing, Backed;
    if n > 0 {
      ForkExcess(eager, s, p, c, n - 1, f);
      ForkOk(eager, s, p, c, n - 1);
      ForkPageExcess(eager, ForkPages(eager, s, p, c, n - 1), Va(p, n - 1), Va(c, n - 1), f);
    }
  }

  lemma {:induction false} UnmapPagesExcess(s: State, c: nat, from: nat, n: nat, f: nat)
    requires f in s.frames && Excess(s, f) > 0
    ensures Grown(s, UnmapPages(s, c, from, n), f, 0)
  {
    if n > 0 {
      UnmapPagesExcess(s, c, from, n - 1, f);
      var t, a := UnmapPages(s, c, from, n - 1), Va(c, from + n - 1);
      hide Excess, Unmap;
      if a in t.pt && t.pt[a].frame in t.frames { UnmapExcess(t, a, f); }
    }
  }

  /** The reference that a failed fork takes for page i. */
  lemma FailedForkExcess(s: State, p: nat, c: nat, i: nat, f: nat)
    requires Inv(s) && CanFork(false, s, p, c, i + 1) && f in s.frames && (Excess(s, f) > 0 || s.pt[Va(p, i)].frame == f)
    ensures Grown(s, FailedFork(s, p, c, i), f, if s.pt[Va(p, i)].frame == f then 1 else 0)
  {
    assert Va(p, i) in s.pt && Va(p, i).space != c;
    ForkExcess(false, s, p, c, i, f);
    ForkOk(false, s, p, c, i);
    ForkFrames(false, s, p, c, i, Va(p, i));
    assert Excess(s, f) >= 0;
    hide ForkPages, Excess;
    var t := ForkPages(false, s, p, c, i);
    ShareExcess(t, t.pt[Va(p, i)].frame, f);
    UnmapPagesExcess(Share(t, t.pt[Va(p, i)].frame), c, 0, i, f);
  }

  lemma FailedCopyExcess(s: State, p: nat, c: nat, i: nat, f: nat)
    requires Inv(s) && CanFork(true, s, p, c, i) && f in s.frames && Excess(s, f) > 0
    ensures Grown(s, FailedCopy(s, p, c, i), f, 0)
  {
    ForkExcess(true, s, p, c, i, f);
    hide ForkPages, UnmapPages, Excess, Inv;
    UnmapPagesExcess(ForkPages(true, s, p, c, i), c, 0, i, f);
  }

  /** No step, with memory or without, gives an excess reference back. */
  lemma StepExcess(eager: bool, s: State, act: Action, f: nat)
    requires Inv(s) && Allowed(eager, s, act) && f in s.frames && Excess(s, f) > 0
    ensures var t := Step(eager, s, act); f in t.frames && Excess(t, f) >= Excess(s, f)
    ensures eager || !act.FailFork? ==> Grown(s, Step(eager, s, act), f, 0)
  {
    match act
    case Fork(p, c, n) => if eager && |s.free| < n { FailedCopyExcess(s, p, c, |s.free|, f); } else { ForkExcess(eager, s, p, c, n, f); }
    case UserStore(a, off, data) => WritesExcess(s, a, off, data, f);
    case CopyOut(a, off, data) => WritesExcess(s, a, off, data, f);
    case GrowPage(a) =>
      if s.free != [] {
        KallocExcess(s, ZeroPage(), f);
        MapExcess(Kalloc(s, ZeroPage()), a, Leaf(s.free[0], FULL), f);
      }
    case DropPage(a) => UnmapExcess(s, a, f);
    case ClearUser(a) => FlagsExcess(s, a, s.pt[a].flags.(u := false), f);
    case FailFork(p, c, i) => if eager { FailedCopyExcess(s, p, c, i, f); } else { FailedForkExcess(s, p, c, i, f); }
    case TakeTables(k) =>
    case GiveTable(h) =>
  }

  lemma {:induction false} RunExcess(eager: bool, s: State, acts: seq<Action>, f: nat)
    requires Inv(s) && MayRun(eager, s, acts) && f in s.frames && Excess(s, f) > 0
    ensures var t := Run(eager, s, acts); f in t.frames && Excess(t, f) >= Excess(s, f)
    decreases |acts|
  {
    if acts != [] {
      StepSafe(eager, s, acts[0]);
      StepExcess(eager, s, acts[0], f);
      hide Inv, Step, Allowed, Excess;
      RunExcess(eager, Step(eager, s, acts[0]), acts[1..], f);
    }
  }

  /**
   The frame of the page at which a fork failed: whatever happens later, it keeps a reference that
   no entry accounts for, and it is never free again.
   */
  lemma LeakedForEver(s: State, p: nat, c: nat, i: nat, acts: seq<Action>)
    requires Inv(s) && CanFork(false, s, p, c, i + 1)
    requires Inv(FailedFork(s, p, c, i)) && MayRun(false, FailedFork(s, p, c, i), acts)
    ensures var f, t := s.pt[Va(p, i)].frame, Run(false, FailedFork(s, p, c, i), acts);
      f in t.frames && Excess(t, f) >= 1 && f !in t.free
  {
    var u, f := FailedFork(s, p, c, i), s.pt[Va(p, i)].frame;
    assert f in s.frames && Excess(s, f) >= 0;
    FailedForkExcess(s, p, c, i, f);
    hide FailedFork, Excess;
    RunExcess(false, u, acts, f);
    RunSafe(false, u, acts);
  }

  // ---- copyout without memory ----

  /** Process 0 gets a page, forks process 1, and the rest of the memory goes into page tables. */
  ghost function Exhausting(free: seq<nat>): seq<Action>
    requires free != []
  {
    [GrowPage(Va(0, 0)), Fork(0, 1, 1), TakeTables(|free| - 1)]
  }

  ghost function Exhausted(free: seq<nat>): State
    requires free != []
  {
    var l := Leaf(free[0], Cowed(FULL));
    State(map[Va(0, 0) := l, Va(1, 0) := l], map[free[0] := Frame(ZeroPage(), 2)], [])
  }

  ghost function OnePage(free: seq<nat>): State
    requires free != []
  {
    State(map[Va(0, 0) := Leaf(free[0], FULL)], map[free[0] := Frame(ZeroPage(), 1)], free[1..])
  }

  lemma FirstPage(free: seq<nat>)
    requires free != [] && Distinct(free)
    ensures var b := State(map[], map[], free);
      && Inv(b) && Enabled(false, b, GrowPage(Va(0, 0)))
      && Step(false, b, GrowPage(Va(0, 0))) == OnePage(free) && Inv(OnePage(free))
  {
    StepOk(false, State(map[], map[], free), GrowPage(Va(0, 0)));
    hide ViewOf, ZeroPage;
  }

  lemma FirstFork(free: seq<nat>)
    requires free != [] && Inv(OnePage(free))
    ensures Enabled(false, OnePage(free), Fork(0, 1, 1))
    ensures Step(false, OnePage(free), Fork(0, 1, 1)) == Exhausted(free).(free := free[1..]) && Inv(Exhausted(free).(free := free[1..]))
  {
    var s, l := OnePage(free), Leaf(free[0], Cowed(FULL));
    assert Enabled(false, s, Fork(0, 1, 1));
    StepOk(false, s, Fork(0, 1, 1));
    hide Inv, ViewOf, ZeroPage, SpecFork;
    assert ForkPages(false, s, 0, 1, 0) == s;
    assert s.pt[Va(1, 0) := l][Va(0, 0) := l] == map[Va(0, 0) := l, Va(1, 0) := l];
    assert SharePage(s, Va(0, 0), Va(1, 0)) == Exhausted(free).(free := free[1..]);
  }

  lemma ExhaustingRun(free: seq<nat>)
    requires free != [] && Distinct(free)
    ensures var b := State(map[], map[], free);
      Inv(b) && CanRun(false, b, Exhausting(free)) && Run(false, b, Exhausting(free)) == Exhausted(free)
  {
    FirstPage(free);
    FirstFork(free);
    var t, acts := Exhausted(free).(free := free[1..]), Exhausting(free);
    hide Inv;
    assert Enabled(false, t, acts[2]) && Step(false, t, acts[2]) == Exhausted(free);
    StepOk(false, t, acts[2]);
    hide Enabled, Step;
    ThreeSteps(State(map[], map[], free), OnePage(free), t, Exhausted(free), acts);
  }

  lemma ThreeSteps(b: State, s: State, t: State, u: State, acts: seq<Action>)
    requires |acts| == 3 && Inv(b) && Enabled(false, b, acts[0]) && s == Step(false, b, acts[0])
    requires Inv(s) && Enabled(false, s, acts[1]) && t == Step(false, s, acts[1])
    requires Inv(t) && Enabled(false, t, acts[2]) && u == Step(false, t, acts[2]) && Inv(u)
    ensures CanRun(false, b, acts) && Run(false, b, acts) == u
  {
    hide Inv, Enabled, Step;
    var one, two := acts[1..], acts[2..];
    assert one[0] == acts[1] && one[1..] == two && two[0] == acts[2] && two[1..] == [];
    assert CanRun(false, u, []) && Run(false, u, []) == u;
    assert CanRun(false, t, two) && Run(false, t, two) == u;
    assert CanRun(false, s, one) && Run(false, s, one) == u;
  }

  /**
   From boot, whatever the free list: after those three steps a `copyout` of one byte to process 0
   is seen by process 1.
   */
  lemma CopyoutSeenByOther(free: seq<nat>)
    requires free != [] && Distinct(free)
    ensures var b := State(map[], map[], free);
      && Inv(b) && CanRun(false, b, Exhausting(free))
      && var s := Run(false, b, Exhausting(free));
      && Inv(s) && s.free == [] && Va(1, 0) in ViewOf(s)
      && var t := Copyout(s, Va(0, 0), 0, [1]);
      && Backed(t) && Va(1, 0) in ViewOf(t) && ViewOf(t)[Va(1, 0)] != ViewOf(s)[Va(1, 0)]
      && ViewOf(t) != SpecWrite(ViewOf(s), Va(0, 0), 0, [1])
  {
    ExhaustingRun(free);
    RunRefines(false, State(map[], map[], free), Exhausting(free));
    hide CanRun, Run, SpecRun, Observed, Inv;
    var s := Exhausted(free);
    OtherSees(s, Va(0, 0), Va(1, 0));
  }

  /** Any process that shares the frame sees the write. */
  lemma OtherSees(s: State, a: Va, b: Va)
    requires Inv(s) && s.free == [] && a in s.pt && b in s.pt && a != b && s.pt[a].frame == s.pt[b].frame
    requires s.pt[a].flags.u && s.frames[s.pt[a].frame].page == ZeroPage()
    ensures var t := Copyout(s, a, 0, [1]);
      && b in ViewOf(s) && Backed(t) && b in ViewOf(t) && ViewOf(t)[b] != ViewOf(s)[b]
      && ViewOf(t) != SpecWrite(ViewOf(s), a, 0, [1])
  {
    var page := Splice(ZeroPage(), 0, [1]);
    assert page[0] == 1;
    assert Copyout(s, a, 0, [1]) == Write(s, a, page);
    WriteEverywhere(s, a, page, b);
    ViewAt(s, b);
    hide ViewOf, Write;
    assert ViewOf(s)[b].page[0] == 0;
  }
}
