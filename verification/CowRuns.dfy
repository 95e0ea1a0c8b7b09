/**
 Runs of forks, stores, copyouts, growth and unmapping over the pieces in `Cow`, with either
 `uvmcopy`. Both refine the same specification, in which every address space owns its pages.
 */
module CowRuns {
  import opened Counting
  import opened Cow

  lemma NoMappers(pt: map<Va, Leaf>, f: nat)
    requires Mappers(pt, f) == {}
    ensures forall b :: b in pt ==> pt[b].frame != f
  {
    assert forall b :: b in pt && pt[b].frame == f ==> b in Mappers(pt, f);
  }

  lemma ViewAt(s: State, a: Va)
    requires Backed(s) && a in s.pt
    ensures a in ViewOf(s) && ViewOf(s)[a] == LeafView(s.pt[a], s.frames[s.pt[a].frame].page)
  {
  }

  /** A view shows the contents of the frame and the rights in the entry, with a copy-on-write page as a writable one. */
  lemma ViewShows(s: State, a: Va)
    requires Backed(s) && a in s.pt
    ensures a in ViewOf(s) && ViewOf(s)[a].page == s.frames[s.pt[a].frame].page
    ensures var v, flags := ViewOf(s)[a], s.pt[a].flags;
      v.r == flags.r && v.x == flags.x && v.u == flags.u && v.writable == (flags.w || flags.cow)
  {
    ViewAt(s, a);
  }

  lemma UsableAt(s: State, a: Va)
    requires Inv(s) && a in s.pt
    ensures Usable(s.pt[a].flags)
  {
  }

  /** Once one entry of a frame is not writable, none is. */
  lemma ReadOnlyNow(s: State, p: Va)
    requires WritableOnce(s.pt) && p in s.pt && !s.pt[p].flags.w
    ensures forall b :: b in s.pt && s.pt[b].frame == s.pt[p].frame ==> !s.pt[b].flags.w
  {
  }

  // ---- the page fault handler ----

  /** `pgfault_handler` once its checks have passed: a private, writable copy replaces the page. */
  ghost function Fault(s: State, a: Va): State
    requires Inv(s) && a in s.pt && s.free != []
  {
    var l, f := s.pt[a], s.free[0];
    KallocOk(s, s.frames[l.frame].page);
    var t := Unmap(Kalloc(s, s.frames[l.frame].page), a);
    t.(pt := t.pt[a := Leaf(f, l.flags.(w := true))])
  }

  /** The handler changes no view, and afterwards the page has its frame to itself. */
  lemma FaultOk(s: State, a: Va)
    requires Inv(s) && a in s.pt && s.pt[a].flags.cow && s.free != []
    ensures Inv(Fault(s, a)) && ViewOf(Fault(s, a)) == ViewOf(s)
    ensures a in Fault(s, a).pt && Mappers(Fault(s, a).pt, Fault(s, a).pt[a].frame) == {a}
    ensures Fault(s, a).pt[a].flags == s.pt[a].flags.(w := true)
    ensures Exact(s) ==> Exact(Fault(s, a))
  {
    hide Owing, Counted, WritableOnce, AllUsable, ViewOf;
    UsableAt(s, a);
    var l, f := s.pt[a], s.free[0];
    var page := s.frames[l.frame].page;
    KallocOk(s, page);
    var k := Kalloc(s, page);
    UnmapOk(k, a, map[f := 1]);
    var t := Unmap(k, a);
    assert f != l.frame && t.frames[f] == Frame(page, 1);
    MappersDrop(s.pt, a, f);
    var leaf := Leaf(f, l.flags.(w := true));
    NoMappers(t.pt, f);
    MapOk(t, a, leaf);
    MappersSet(t.pt, a, leaf, f);
    ViewAt(s, a);
    assert ViewOf(s) == (ViewOf(s) - {a})[a := LeafView(leaf, page)];
  }

  // ---- fork, one page at a time ----

  /** The body of the sharing `uvmcopy`: one more reference, both entries read-only and copy-on-write. */
  ghost function SharePage(s: State, p: Va, c: Va): State
    requires p in s.pt && s.pt[p].frame in s.frames
  {
    var l := Leaf(s.pt[p].frame, Cowed(s.pt[p].flags));
    Share(s, l.frame).(pt := s.pt[c := l][p := l])
  }

  function Cowed(flags: Flags): Flags {
    flags.(w := false, cow := true)
  }

  /** Taking write permission away and marking the page instead changes no view. */
  lemma MarkOk(s: State, p: Va)
    requires Inv(s) && p in s.pt
    ensures Inv(SetFlags(s, p, Cowed(s.pt[p].flags)))
    ensures ViewOf(SetFlags(s, p, Cowed(s.pt[p].flags))) == ViewOf(s)
    ensures Exact(s) ==> Exact(SetFlags(s, p, Cowed(s.pt[p].flags)))
  {
    assert s.pt[p].flags.w || s.pt[p].flags.cow;
    FlagsOk(s, p, Cowed(s.pt[p].flags));
    ViewAt(s, p);
    hide *;
    assert ViewOf(s)[p := ViewOf(s)[p]] == ViewOf(s);
  }

  lemma SharePageOk(s: State, p: Va, c: Va)
    requires Inv(s) && p in s.pt && c !in s.pt
    ensures Inv(SharePage(s, p, c)) && ViewOf(SharePage(s, p, c)) == ViewOf(s)[c := ViewOf(s)[p]]
    ensures Exact(s) ==> Exact(SharePage(s, p, c))
  {
    hide Owing, Counted, WritableOnce, AllUsable, ViewOf, FreeOk;
    UsableAt(s, p);
    var l := Leaf(s.pt[p].frame, Cowed(s.pt[p].flags));
    MarkOk(s, p);
    var t := SetFlags(s, p, l.flags);
    ViewAt(t, p);
    ReadOnlyNow(t, p);
    ShareOk(t, l.frame);
    assert s.pt[c := l][p := l] == s.pt[p := l][c := l];
    MapOk(Share(t, l.frame), c, l);
  }

  /** The body of the copying `uvmcopy`: a new frame with the same contents and flags. */
  ghost function CopyPage(s: State, p: Va, c: Va): State
    requires p in s.pt && s.pt[p].frame in s.frames && s.free != []
  {
    var l := s.pt[p];
    Kalloc(s, s.frames[l.frame].page).(pt := s.pt[c := Leaf(s.free[0], l.flags)])
  }

  lemma CopyPageOk(s: State, p: Va, c: Va)
    requires Inv(s) && p in s.pt && c !in s.pt && s.free != []
    ensures Inv(CopyPage(s, p, c)) && ViewOf(CopyPage(s, p, c)) == ViewOf(s)[c := ViewOf(s)[p]]
    ensures Exact(s) ==> Exact(CopyPage(s, p, c))
  {
    var l, f := s.pt[p], s.free[0];
    var page := s.frames[l.frame].page;
    KallocOk(s, page);
    var k := Kalloc(s, page);
    NoMappers(k.pt, f);
    hide Owing, Counted, WritableOnce, ViewOf;
    ViewAt(s, p);
    MapOk(k, c, Leaf(f, l.flags));
  }

  ghost function ForkPage(eager: bool, s: State, p: Va, c: Va): State {
    if p !in s.pt || s.pt[p].frame !in s.frames || (eager && s.free == []) then s
    else if eager then CopyPage(s, p, c) else SharePage(s, p, c)
  }

  /** The loop of `uvmcopy` over pages 0 to n - 1. */
  ghost function ForkPages(eager: bool, s: State, p: nat, c: nat, n: nat): (t: State) {
    if n == 0 then s
    else ForkPage(eager, ForkPages(eager, s, p, c, n - 1), Va(p, n - 1), Va(c, n - 1))
  }

  /** `uvmcopy` finds all the parent's pages, the child has none, and copying does not run out of memory. */
  ghost predicate CanFork(eager: bool, s: State, p: nat, c: nat, n: nat) {
    && p != c && (eager ==> |s.free| >= n)
    && (forall v: nat :: v < n ==> Va(p, v) in s.pt)
    && (forall a :: a in s.pt ==> a.space != c)
  }

  /** The child gets the parent's pages below n. */
  ghost function SpecFork(views: Views, p: nat, c: nat, n: nat): Views {
    if n == 0 then views else
    var rest := SpecFork(views, p, c, n - 1);
    if Va(p, n - 1) in rest then rest[Va(c, n - 1) := rest[Va(p, n - 1)]] else rest
  }

  lemma ForkPageOk(eager: bool, s: State, p: Va, c: Va)
    requires Inv(s) && p in s.pt && c !in s.pt && (eager ==> s.free != [])
    ensures var t := ForkPage(eager, s, p, c);
      && Inv(t) && p in ViewOf(s) && ViewOf(t) == ViewOf(s)[c := ViewOf(s)[p]]
      && (Exact(s) ==> Exact(t))
      && |t.free| == |s.free| - (if eager then 1 else 0)
      && t.pt.Keys == s.pt.Keys + {c}
  {
    assert Backed(s);
    ViewAt(s, p);
    if eager { CopyPageOk(s, p, c); } else { SharePageOk(s, p, c); }
    hide Inv, Owing, ViewOf;
  }

  ghost predicate ForkedTo(s: State, t: State, p: nat, c: nat, n: nat, eager: bool)
    requires Backed(s)
  {
    && Inv(t)
    && ViewOf(t) == SpecFork(ViewOf(s), p, c, n)
    && (Exact(s) ==> Exact(t))
    && |t.free| == |s.free| - (if eager then n else 0)
    && (forall a :: a in s.pt ==> a in t.pt)
    && (forall v: nat :: v >= n ==> Va(c, v) !in t.pt)
    && (forall v: nat :: v < n ==> Va(c, v) in t.pt)
  }

  lemma {:induction false} ForkOk(eager: bool, s: State, p: nat, c: nat, n: nat)
    requires Inv(s) && CanFork(eager, s, p, c, n)
    ensures ForkedTo(s, ForkPages(eager, s, p, c, n), p, c, n, eager)
  {
    hide ForkPage, Owing, Counted, WritableOnce, AllUsable, ViewOf, FreeOk, Backed;
    if n > 0 {
      ForkOk(eager, s, p, c, n - 1);
      ForkPageOk(eager, ForkPages(eager, s, p, c, n - 1), Va(p, n - 1), Va(c, n - 1));
    }
  }

  /** A fork moves no page to another frame. */
  lemma {:induction false} ForkFrames(eager: bool, s: State, p: nat, c: nat, n: nat, a: Va)
    requires a in s.pt && a.space != c
    ensures var t := ForkPages(eager, s, p, c, n); a in t.pt && t.pt[a].frame == s.pt[a].frame
  {
    if n > 0 {
      ForkFrames(eager, s, p, c, n - 1, a);
      hide ForkPages;
    }
  }

  /** Nor does it change the entry of a page that it has not come to. */
  lemma {:induction false} ForkUntouched(eager: bool, s: State, p: nat, c: nat, n: nat, a: Va)
    requires a in s.pt && a.space != c && (a.space != p || a.page >= n)
    ensures var t := ForkPages(eager, s, p, c, n); a in t.pt && t.pt[a] == s.pt[a]
  {
    if n > 0 {
      ForkUntouched(eager, s, p, c, n - 1, a);
      hide ForkPages;
    }
  }

  /** Two entries allow the same, once the page fault handler has had its say. */
  predicate SameRights(a: Flags, b: Flags) {
    a.r == b.r && a.x == b.x && a.u == b.u && (a.w || a.cow) == (b.w || b.cow)
  }

  /**
   What becomes of the entry `l` of a page in a fork. Shared, the parent's and the child's have one frame
   that neither may write to; copied, the parent's stays as it is and the child's has another frame.
   */
  predicate Forked(eager: bool, l: Leaf, parent: Leaf, child: Leaf) {
    && SameRights(parent.flags, l.flags) && SameRights(child.flags, l.flags) && parent.frame == l.frame
    && if eager then parent == l && child.flags == l.flags && child.frame != l.frame
       else child == parent && !parent.flags.w && parent.flags.cow
  }

  lemma ForkPageEntries(eager: bool, s: State, p: Va, c: Va)
    requires Inv(s) && p in s.pt && p != c && (eager ==> s.free != [])
    ensures var t := ForkPage(eager, s, p, c);
      && p in t.pt && c in t.pt && Forked(eager, s.pt[p], t.pt[p], t.pt[c])
      && forall a :: a in s.pt && a != p && a != c ==> a in t.pt && t.pt[a] == s.pt[a]
  {
    UsableAt(s, p);
    hide Owing, Counted, WritableOnce, AllUsable, ViewOf;
  }

  ghost predicate ForkedAt(eager: bool, s: State, t: State, a: Va, b: Va) {
    a in s.pt && a in t.pt && b in t.pt && Forked(eager, s.pt[a], t.pt[a], t.pt[b])
  }

  lemma ForkedMore(eager: bool, s: State, u: State, a: Va, b: Va, p: Va, c: Va)
    requires Inv(u) && p in u.pt && p != c && (eager ==> u.free != [])
    requires if a == p && b == c then p in s.pt && u.pt[p] == s.pt[p] else a != p && a != c && b != p && b != c && ForkedAt(eager, s, u, a, b)
    ensures ForkedAt(eager, s, ForkPage(eager, u, p, c), a, b)
  {
    ForkPageEntries(eager, u, p, c);
    hide Inv, ForkPage, Forked;
  }

  /** The entries of parent and child for page `v` after a fork. */
  lemma {:induction false} ForkEntries(eager: bool, s: State, p: nat, c: nat, n: nat, v: nat)
    requires Inv(s) && CanFork(eager, s, p, c, n) && v < n
    ensures ForkedAt(eager, s, ForkPages(eager, s, p, c, n), Va(p, v), Va(c, v))
  {
    hide Inv, Exact, ViewOf, SpecFork, ForkPage, ForkedAt;
    ForkOk(eager, s, p, c, n - 1);
    ForkUntouched(eager, s, p, c, n - 1, Va(p, n - 1));
    if v < n - 1 { ForkEntries(eager, s, p, c, n - 1, v); }
    ForkedMore(eager, s, ForkPages(eager, s, p, c, n - 1), Va(p, v), Va(c, v), Va(p, n - 1), Va(c, n - 1));
  }

  /** What `SpecFork` means, page by page. */
  lemma {:induction false} SpecForkIs(views: Views, p: nat, c: nat, n: nat)
    requires p != c && (forall a :: a in views ==> a.space != c)
    ensures var f := SpecFork(views, p, c, n);
      && (forall a :: a in views ==> a in f && f[a] == views[a])
      && (forall a :: a in f && a !in views ==> a.space == c && a.page < n)
      && (forall v: nat :: v < n ==> (Va(c, v) in f <==> Va(p, v) in views))
      && (forall v: nat :: v < n && Va(p, v) in views ==> f[Va(c, v)] == views[Va(p, v)])
  {
    if n > 0 { SpecForkIs(views, p, c, n - 1); }
  }

  // ---- a fork that runs out of memory for page tables ----

  ghost function UnmapPage(s: State, a: Va): State {
    if a in s.pt && s.pt[a].frame in s.frames then Unmap(s, a) else s
  }

  lemma UnmapPageOk(s: State, a: Va, due: map<nat, nat>)
    requires Inv(s)
    ensures Inv(UnmapPage(s, a)) && ViewOf(UnmapPage(s, a)) == ViewOf(s) - {a}
    ensures Owing(s, due) ==> Owing(UnmapPage(s, a), due)
  {
    if a in s.pt {
      UnmapOk(s, a, due);
    } else {
      assert ViewOf(s) - {a} == ViewOf(s);
    }
    hide *;
  }

  /** `uvmunmap` with `do_free` of `n` pages from page `from` on. */
  ghost function UnmapPages(s: State, c: nat, from: nat, n: nat): State {
    if n == 0 then s else UnmapPage(UnmapPages(s, c, from, n - 1), Va(c, from + n - 1))
  }

  ghost function PagesOf(c: nat, from: nat, n: nat): set<Va> {
    if n == 0 then {} else PagesOf(c, from, n - 1) + {Va(c, from + n - 1)}
  }

  lemma {:induction false} PagesOfIs(c: nat, from: nat, n: nat)
    ensures forall a :: a in PagesOf(c, from, n) <==> a.space == c && from <= a.page < from + n
  {
    if n > 0 { PagesOfIs(c, from, n - 1); }
  }

  lemma {:induction false} UnmapPagesOk(s: State, c: nat, from: nat, n: nat, due: map<nat, nat>)
    requires Inv(s)
    ensures Inv(UnmapPages(s, c, from, n))
    ensures ViewOf(UnmapPages(s, c, from, n)) == ViewOf(s) - PagesOf(c, from, n)
    ensures Owing(s, due) ==> Owing(UnmapPages(s, c, from, n), due)
  {
    hide Owing, Counted, WritableOnce, AllUsable, FreeOk, Backed, ViewOf, UnmapPage;
    if n > 0 {
      UnmapPagesOk(s, c, from, n - 1, due);
      UnmapPageOk(UnmapPages(s, c, from, n - 1), Va(c, from + n - 1), due);
    }
  }

  lemma {:induction false} UnmapFrames(s: State, c: nat, from: nat, n: nat, a: Va)
    requires a in s.pt && a.space != c
    ensures var t := UnmapPages(s, c, from, n); a in t.pt && t.pt[a].frame == s.pt[a].frame
  {
    if n > 0 {
      UnmapFrames(s, c, from, n - 1, a);
      hide UnmapPages;
    }
  }

  /**
   `uvmcopy` failing at page i: pages below i were shared, the reference for page i is already
   taken, and the child's pages are unmapped again. That one reference is never given back.
   */
  ghost function FailedFork(s: State, p: nat, c: nat, i: nat): State {
    var t := ForkPages(false, s, p, c, i);
    if Va(p, i) !in t.pt || t.pt[Va(p, i)].frame !in t.frames then t
    else UnmapPages(Share(t, t.pt[Va(p, i)].frame), c, 0, i)
  }

  lemma ForkUndone(views: Views, p: nat, c: nat, n: nat)
    requires p != c && (forall a :: a in views ==> a.space != c)
    ensures SpecFork(views, p, c, n) - PagesOf(c, 0, n) == views
  {
    SpecForkIs(views, p, c, n);
    PagesOfIs(c, 0, n);
    hide SpecFork, PagesOf;
  }

  lemma FailedForkOk(s: State, p: nat, c: nat, i: nat)
    requires Inv(s) && CanFork(false, s, p, c, i + 1)
    ensures Inv(FailedFork(s, p, c, i)) && ViewOf(FailedFork(s, p, c, i)) == ViewOf(s)
    ensures var t, f := FailedFork(s, p, c, i), s.pt[Va(p, i)].frame;
      f in t.frames && (Exact(s) ==> Owing(t, map[f := 1]) && !Exact(t))
  {
    assert Va(p, i) in s.pt && Va(p, i).space != c;
    ForkFrames(false, s, p, c, i, Va(p, i));
    assert forall a :: a in ViewOf(s) ==> a.space != c;
    hide Owing, Counted, WritableOnce, AllUsable, FreeOk, ViewOf, ForkPages, UnmapPages, SpecFork;
    ForkOk(false, s, p, c, i);
    var t := ForkPages(false, s, p, c, i);
    ShareOk(t, t.pt[Va(p, i)].frame);
    hide Inv;
    var f := t.pt[Va(p, i)].frame;
    UnmapPagesOk(Share(t, f), c, 0, i, map[f := 1]);
    UnmapFrames(Share(t, f), c, 0, i, Va(p, i));
    OwedOne(UnmapPages(Share(t, f), c, 0, i), Va(p, i), f);
    ForkUndone(ViewOf(s), p, c, i);
  }

  /** A reference owed to a mapped frame is one that the counts show. */
  lemma OwedOne(s: State, a: Va, f: nat)
    requires Inv(s) && a in s.pt && s.pt[a].frame == f
    ensures f in s.frames && (Owing(s, map[f := 1]) ==> !Exact(s))
  {
  }

  /** The copying `uvmcopy` failing at page i: the pages copied so far are unmapped again. */
  ghost function FailedCopy(s: State, p: nat, c: nat, i: nat): State {
    UnmapPages(ForkPages(true, s, p, c, i), c, 0, i)
  }

  lemma FailedCopyOk(s: State, p: nat, c: nat, i: nat)
    requires Inv(s) && CanFork(true, s, p, c, i)
    ensures Inv(FailedCopy(s, p, c, i)) && ViewOf(FailedCopy(s, p, c, i)) == ViewOf(s)
    ensures Exact(s) ==> Exact(FailedCopy(s, p, c, i))
  {
    assert forall a :: a in ViewOf(s) ==> a.space != c;
    hide Owing, Counted, WritableOnce, AllUsable, FreeOk, ViewOf, ForkPages, UnmapPages, SpecFork;
    ForkOk(true, s, p, c, i);
    hide Inv;
    UnmapPagesOk(ForkPages(true, s, p, c, i), c, 0, i, map[]);
    ForkUndone(ViewOf(s), p, c, i);
  }

  // ---- writing to a page ----

  function Splice(page: Page, off: nat, data: seq<Byte>): (r: Page)
    requires off + |data| <= PGSIZE
  {
    page[..off] + data + page[off + |data|..]
  }

  lemma SpliceSame(page: Page, off: nat, data: seq<Byte>)
    requires off + |data| <= PGSIZE
    ensures Splice(page, off, data) == page <==> page[off..off + |data|] == data
  {
    var p := Splice(page, off, data);
    assert p[off..off + |data|] == data;
    if page[off..off + |data|] == data {
      assert page == page[..off] + page[off..off + |data|] + page[off + |data|..];
    }
  }

  /** The page's owner sees `data` at `off`; no one else sees anything. */
  ghost function SpecWrite(views: Views, a: Va, off: nat, data: seq<Byte>): Views
    requires off + |data| <= PGSIZE
  {
    if a in views && views[a].u then views[a := views[a].(page := Splice(views[a].page, off, data))] else views
  }

  ghost function WriteAt(s: State, a: Va, off: nat, data: seq<Byte>): State
    requires a in s.pt && s.pt[a].frame in s.frames && off + |data| <= PGSIZE
  {
    Write(s, a, Splice(s.frames[s.pt[a].frame].page, off, data))
  }

  /** A user store: straight through, after a page fault, or else the process is killed. */
  ghost function Store(s: State, a: Va, off: nat, data: seq<Byte>): State
    requires Inv(s) && off + |data| <= PGSIZE
  {
    if a !in s.pt || !s.pt[a].flags.u then s
    else if s.pt[a].flags.w then WriteAt(s, a, off, data)
    else if s.pt[a].flags.cow && s.free != [] then FaultOk(s, a); WriteAt(Fault(s, a), a, off, data)
    else s
  }

  /** One page of `copyout`: it calls the handler, ignores the result, and writes if the page is a user page. */
  ghost function Copyout(s: State, a: Va, off: nat, data: seq<Byte>): State
    requires Inv(s) && off + |data| <= PGSIZE
  {
    if a !in s.pt || !s.pt[a].flags.u then s
    else if s.pt[a].flags.cow && s.free != [] then FaultOk(s, a); WriteAt(Fault(s, a), a, off, data)
    else WriteAt(s, a, off, data)
  }

  lemma SoleMapper(s: State, a: Va)
    requires WritableOnce(s.pt) && a in s.pt && s.pt[a].flags.w
    ensures Mappers(s.pt, s.pt[a].frame) == {a}
  {
  }

  lemma WriteAtOk(s: State, a: Va, off: nat, data: seq<Byte>)
    requires Inv(s) && a in s.pt && s.pt[a].flags.u && off + |data| <= PGSIZE
    requires Mappers(s.pt, s.pt[a].frame) == {a}
    ensures Inv(WriteAt(s, a, off, data)) && ViewOf(WriteAt(s, a, off, data)) == SpecWrite(ViewOf(s), a, off, data)
    ensures Exact(s) ==> Exact(WriteAt(s, a, off, data))
  {
    hide Owing, Counted, WritableOnce, AllUsable, FreeOk, ViewOf, Splice;
    WriteOk(s, a, Splice(s.frames[s.pt[a].frame].page, off, data));
    ViewAt(s, a);
  }

  /** A user store does to the views what it should, when there is memory for the page fault, if there is one. */
  lemma StoreOk(s: State, a: Va, off: nat, data: seq<Byte>)
    requires Inv(s) && off + |data| <= PGSIZE
    requires a in s.pt && s.pt[a].flags.u && !s.pt[a].flags.w && s.pt[a].flags.cow ==> s.free != []
    ensures Inv(Store(s, a, off, data)) && ViewOf(Store(s, a, off, data)) == SpecWrite(ViewOf(s), a, off, data)
  {
    if a in s.pt && s.pt[a].flags.u {
      assert s.pt[a].flags.w || s.pt[a].flags.cow;
      if s.pt[a].flags.w {
        SoleMapper(s, a);
        WriteAtOk(s, a, off, data);
      } else {
        FaultOk(s, a);
        WriteAtOk(Fault(s, a), a, off, data);
      }
    } else if a in s.pt {
      ViewAt(s, a);
    }
    hide Inv, Owing, ViewOf, Fault, WriteAt, SpecWrite;
  }

  /** One page of `copyout` goes right: there is memory where it asks for some, no one else maps the frame, or nothing changes. */
  ghost predicate CopyoutRight(s: State, a: Va, off: nat, data: seq<Byte>)
    requires Inv(s) && off + |data| <= PGSIZE
  {
    a in s.pt && s.pt[a].flags.u && s.pt[a].flags.cow && s.free == [] ==>
      var page := s.frames[s.pt[a].frame].page;
      Mappers(s.pt, s.pt[a].frame) == {a} || page[off..off + |data|] == data
  }

  lemma CopyoutOk(s: State, a: Va, off: nat, data: seq<Byte>)
    requires Inv(s) && off + |data| <= PGSIZE && CopyoutRight(s, a, off, data)
    ensures Inv(Copyout(s, a, off, data)) && ViewOf(Copyout(s, a, off, data)) == SpecWrite(ViewOf(s), a, off, data)
  {
    WritesSafe(s, a, off, data);
    if a in s.pt && s.pt[a].flags.u {
      assert s.pt[a].flags.w || s.pt[a].flags.cow;
      if s.pt[a].flags.cow && s.free != [] {
        FaultOk(s, a);
        WriteAtOk(Fault(s, a), a, off, data);
      } else if s.pt[a].flags.cow {
        CopyoutOutOfMemory(s, a, off, data);
      } else {
        SoleMapper(s, a);
        WriteAtOk(s, a, off, data);
      }
    } else if a in s.pt {
      ViewAt(s, a);
    }
    hide Inv, Owing, ViewOf, Fault, WriteAt, SpecWrite;
  }

  /** The bytes of `data` from `off` on are what the owner of page `a` now sees there, and nothing else looks different to anyone. */
  ghost predicate BytesWritten(views: Views, views': Views, a: Va, off: nat, data: seq<Byte>) {
    && views'.Keys == views.Keys && a in views
    && (forall b :: b in views ==> views'[b] == views[b].(page := views'[b].page) && (b != a ==> views'[b].page == views[b].page))
    && forall i :: 0 <= i < PGSIZE ==> views'[a].page[i] == if off <= i < off + |data| then data[i - off] else views[a].page[i]
  }

  lemma SpecWriteBytes(views: Views, a: Va, off: nat, data: seq<Byte>)
    requires off + |data| <= PGSIZE
    ensures if a in views && views[a].u then BytesWritten(views, SpecWrite(views, a, off, data), a, off, data)
      else SpecWrite(views, a, off, data) == views
  {
  }

  /** What a store and a page of `copyout` do to memory, byte by byte. */
  lemma WritesBytes(s: State, a: Va, off: nat, data: seq<Byte>)
    requires Inv(s) && off + |data| <= PGSIZE && a in s.pt && s.pt[a].flags.u
    ensures s.pt[a].flags.w || s.free != [] ==>
      Backed(Store(s, a, off, data)) && BytesWritten(ViewOf(s), ViewOf(Store(s, a, off, data)), a, off, data)
    ensures CopyoutRight(s, a, off, data) ==>
      Backed(Copyout(s, a, off, data)) && BytesWritten(ViewOf(s), ViewOf(Copyout(s, a, off, data)), a, off, data)
  {
    ViewAt(s, a);
    SpecWriteBytes(ViewOf(s), a, off, data);
    if s.pt[a].flags.w || s.free != [] { StoreOk(s, a, off, data); }
    if CopyoutRight(s, a, off, data) { CopyoutOk(s, a, off, data); }
    hide ViewOf, Store, Copyout, SpecWrite, BytesWritten;
  }

  /** A write into a frame never breaks the invariant, whoever maps the frame. */
  lemma WriteSafe(s: State, a: Va, off: nat, data: seq<Byte>)
    requires Inv(s) && a in s.pt && off + |data| <= PGSIZE
    ensures Inv(WriteAt(s, a, off, data)) && (Exact(s) ==> Exact(WriteAt(s, a, off, data)))
  {
    hide Splice;
  }

  /** With memory or without. */
  lemma WritesSafe(s: State, a: Va, off: nat, data: seq<Byte>)
    requires Inv(s) && off + |data| <= PGSIZE
    ensures Inv(Store(s, a, off, data)) && (Exact(s) ==> Exact(Store(s, a, off, data)))
    ensures Inv(Copyout(s, a, off, data)) && (Exact(s) ==> Exact(Copyout(s, a, off, data)))
  {
    if a in s.pt && s.pt[a].flags.u {
      WriteSafe(s, a, off, data);
      if s.pt[a].flags.cow && s.free != [] {
        FaultOk(s, a);
        WriteSafe(Fault(s, a), a, off, data);
      }
    }
    hide Inv, Owing, Fault, WriteAt;
  }

  lemma WriteEverywhere(s: State, a: Va, page: Page, b: Va)
    requires Backed(s) && a in s.pt && b in s.pt && s.pt[b].frame == s.pt[a].frame
    ensures Backed(Write(s, a, page)) && b in ViewOf(Write(s, a, page)) && ViewOf(Write(s, a, page))[b].page == page
  {
  }

  /**
   `copyout` with no memory for the handler writes into the shared frame. It still does what it
   should exactly when no one else maps that frame, or there was nothing to change.
   */
  lemma CopyoutOutOfMemory(s: State, a: Va, off: nat, data: seq<Byte>)
    requires Inv(s) && off + |data| <= PGSIZE && s.free == []
    requires a in s.pt && s.pt[a].flags.u && s.pt[a].flags.cow
    ensures Backed(Copyout(s, a, off, data))
    ensures var page := s.frames[s.pt[a].frame].page;
      ViewOf(Copyout(s, a, off, data)) == SpecWrite(ViewOf(s), a, off, data)
      <==> Mappers(s.pt, s.pt[a].frame) == {a} || page[off..off + |data|] == data
  {
    var f := s.pt[a].frame;
    var page := s.frames[f].page;
    var new' := Splice(page, off, data);
    SpliceSame(page, off, data);
    var t := Copyout(s, a, off, data);
    assert t == Write(s, a, new');
    ViewAt(s, a);
    if Mappers(s.pt, f) == {a} {
      WriteAtOk(s, a, off, data);
    } else if new' == page {
      assert t.frames == s.frames;
      assert ViewOf(s) == ViewOf(s)[a := ViewOf(s)[a]];
    } else {
      assert a in Mappers(s.pt, f);
      var b :| b in Mappers(s.pt, f) && b != a;
      WriteEverywhere(s, a, new', b);
      ViewAt(s, b);
      assert SpecWrite(ViewOf(s), a, off, data)[b] == ViewOf(s)[b];
    }
  }

  // ---- growth ----

  /** `uvmalloc` of one page: zeroed, with all permissions. */
  ghost function Grow(s: State, a: Va): State
    requires s.free != []
  {
    Kalloc(s, ZeroPage()).(pt := s.pt[a := Leaf(s.free[0], FULL)])
  }

  lemma GrowOk(s: State, a: Va)
    requires Inv(s) && a !in s.pt && s.free != []
    ensures Inv(Grow(s, a))
    ensures ViewOf(Grow(s, a)) == ViewOf(s)[a := PageView(ZeroPage(), true, true, true, true)]
    ensures Exact(s) ==> Exact(Grow(s, a))
  {
    KallocOk(s, ZeroPage());
    NoMappers(s.pt, s.free[0]);
    hide Owing, Counted, WritableOnce, AllUsable, ViewOf;
    MapOk(Kalloc(s, ZeroPage()), a, Leaf(s.free[0], FULL));
  }

  // ---- runs ----

  datatype Action =
    | Fork(p: nat, c: nat, n: nat)
    | UserStore(a: Va, off: nat, data: seq<Byte>)
    | CopyOut(a: Va, off: nat, data: seq<Byte>)
    | GrowPage(a: Va)
    | DropPage(a: Va)
    | ClearUser(a: Va)       // uvmclear
    // not visible to processes
    | FailFork(p: nat, c: nat, i: nat)
    | TakeTables(k: nat)     // page-table pages taken from the free list
    | GiveTable(f: nat)      // a page-table page given back
  {
    predicate Visible() {
      !FailFork? && !TakeTables? && !GiveTable?
    }
  }

  /** The caller's obligations in the source, whatever memory there is. */
  ghost predicate Allowed(eager: bool, s: State, act: Action) {
    match act
    case Fork(p, c, n) => CanFork(false, s, p, c, n)
    case UserStore(a, off, data) => off + |data| <= PGSIZE
    case CopyOut(a, off, data) => off + |data| <= PGSIZE
    case GrowPage(a) => a !in s.pt
    case DropPage(a) => a in s.pt
    case ClearUser(a) => a in s.pt
    case FailFork(p, c, i) => CanFork(false, s, p, c, i + 1) && (eager ==> i <= |s.free|)
    case TakeTables(k) => k <= |s.free|
    case GiveTable(f) => f !in s.frames && f !in s.free
  }

  /** `kalloc` succeeds where the action needs it to. */
  ghost predicate Supplied(eager: bool, s: State, act: Action)
    requires Inv(s) && Allowed(eager, s, act)
  {
    match act
    case Fork(p, c, n) => eager ==> |s.free| >= n
    case UserStore(a, off, data) => a in s.pt && s.pt[a].flags.u && !s.pt[a].flags.w && s.pt[a].flags.cow ==> s.free != []
    case CopyOut(a, off, data) => CopyoutRight(s, a, off, data)
    case GrowPage(a) => s.free != []
    case _ => true
  }

  ghost predicate Enabled(eager: bool, s: State, act: Action)
    requires Inv(s)
  {
    Allowed(eager, s, act) && Supplied(eager, s, act)
  }

  /** Without memory a growth does nothing, and a fork that copies fails at the first page it has no frame for. */
  ghost function Step(eager: bool, s: State, act: Action): State
    requires Inv(s) && Allowed(eager, s, act)
  {
    match act
    case Fork(p, c, n) => if eager && |s.free| < n then FailedCopy(s, p, c, |s.free|) else ForkPages(eager, s, p, c, n)
    case UserStore(a, off, data) => Store(s, a, off, data)
    case CopyOut(a, off, data) => Copyout(s, a, off, data)
    case GrowPage(a) => if s.free == [] then s else Grow(s, a)
    case DropPage(a) => UnmapPage(s, a)
    case ClearUser(a) => SetFlags(s, a, s.pt[a].flags.(u := false))
    case FailFork(p, c, i) => if eager then FailedCopy(s, p, c, i) else FailedFork(s, p, c, i)
    case TakeTables(k) => s.(free := s.free[k..])
    case GiveTable(f) => s.(free := [f] + s.free)
  }

  /** The same action when every address space owns its pages. */
  ghost function SpecStep(views: Views, act: Action): Views {
    match act
    case Fork(p, c, n) => SpecFork(views, p, c, n)
    case UserStore(a, off, data) => if off + |data| <= PGSIZE then SpecWrite(views, a, off, data) else views
    case CopyOut(a, off, data) => if off + |data| <= PGSIZE then SpecWrite(views, a, off, data) else views
    case GrowPage(a) => views[a := PageView(ZeroPage(), true, true, true, true)]
    case DropPage(a) => views - {a}
    case ClearUser(a) => if a in views then views[a := views[a].(u := false)] else views
    case _ => views
  }

  lemma ClearOk(s: State, a: Va)
    requires Inv(s) && a in s.pt
    ensures var t := SetFlags(s, a, s.pt[a].flags.(u := false));
      && Inv(t) && a in ViewOf(s) && ViewOf(t) == ViewOf(s)[a := ViewOf(s)[a].(u := false)]
      && (Exact(s) ==> Exact(t))
  {
    assert s.pt[a].flags.w || s.pt[a].flags.cow;
    ViewAt(s, a);
    FlagsOk(s, a, s.pt[a].flags.(u := false));
    hide Inv, Owing, ViewOf;
  }

  lemma FreeListOk(s: State, free: seq<nat>)
    requires Inv(s) && Distinct(free) && (forall f :: f in free ==> f !in s.frames)
    ensures Inv(s.(free := free)) && ViewOf(s.(free := free)) == ViewOf(s)
    ensures Exact(s) ==> Exact(s.(free := free))
  {
  }

  /** Every step of either machine, with memory or without, keeps the invariant. */
  lemma StepSafe(eager: bool, s: State, act: Action)
    requires Inv(s) && Allowed(eager, s, act)
    ensures Inv(Step(eager, s, act))
    ensures Exact(s) && (eager || !act.FailFork?) ==> Exact(Step(eager, s, act))
  {
    match act
    case Fork(p, c, n) => if eager && |s.free| < n { FailedCopyOk(s, p, c, |s.free|); } else { ForkOk(eager, s, p, c, n); }
    case UserStore(a, off, data) => WritesSafe(s, a, off, data);
    case CopyOut(a, off, data) => WritesSafe(s, a, off, data);
    case GrowPage(a) => if s.free != [] { GrowOk(s, a); }
    case DropPage(a) => UnmapPageOk(s, a, map[]);
    case ClearUser(a) => ClearOk(s, a);
    case FailFork(p, c, i) => if eager { FailedCopyOk(s, p, c, i); } else { FailedForkOk(s, p, c, i); }
    case TakeTables(k) => FreeListOk(s, s.free[k..]);
    case GiveTable(f) => FreeListOk(s, [f] + s.free);
  }

  /** With memory where it is needed, it also does to the views what the specification does. */
  lemma StepOk(eager: bool, s: State, act: Action)
    requires Inv(s) && Enabled(eager, s, act)
    ensures Inv(Step(eager, s, act)) && ViewOf(Step(eager, s, act)) == SpecStep(ViewOf(s), act)
    ensures Exact(s) && (eager || !act.FailFork?) ==> Exact(Step(eager, s, act))
  {
    StepSafe(eager, s, act);
    hide Owing;
    match act
    case Fork(p, c, n) => ForkOk(eager, s, p, c, n);
    case UserStore(a, off, data) => StoreOk(s, a, off, data);
    case CopyOut(a, off, data) => CopyoutOk(s, a, off, data);
    case GrowPage(a) => GrowOk(s, a);
    case DropPage(a) => UnmapPageOk(s, a, map[]);
    case ClearUser(a) => ClearOk(s, a);
    case FailFork(p, c, i) => if eager { FailedCopyOk(s, p, c, i); } else { FailedForkOk(s, p, c, i); }
    case TakeTables(k) => FreeListOk(s, s.free[k..]);
    case GiveTable(f) => FreeListOk(s, [f] + s.free);
  }

  /** The actions can follow one another, whatever memory there is. */
  ghost predicate MayRun(eager: bool, s: State, acts: seq<Action>)
    requires Inv(s)
    decreases |acts|
  {
    acts == [] || (Allowed(eager, s, acts[0]) && (StepSafe(eager, s, acts[0]); MayRun(eager, Step(eager, s, acts[0]), acts[1..])))
  }

  /** And `kalloc` succeeds where they need it to. */
  ghost predicate CanRun(eager: bool, s: State, acts: seq<Action>): (r: bool)
    requires Inv(s)
    ensures r ==> MayRun(eager, s, acts)
    decreases |acts|
  {
    acts == [] || (Enabled(eager, s, acts[0]) && (StepSafe(eager, s, acts[0]); CanRun(eager, Step(eager, s, acts[0]), acts[1..])))
  }

  ghost function Run(eager: bool, s: State, acts: seq<Action>): State
    requires Inv(s) && MayRun(eager, s, acts)
    decreases |acts|
  {
    if acts == [] then s else
    StepSafe(eager, s, acts[0]);
    Run(eager, Step(eager, s, acts[0]), acts[1..])
  }

  /** No run breaks the invariant, with memory or without; only a failed fork that shares leaves a count inexact. */
  lemma {:induction false} RunSafe(eager: bool, s: State, acts: seq<Action>)
    requires Inv(s) && MayRun(eager, s, acts)
    ensures Inv(Run(eager, s, acts))
    ensures Exact(s) && (eager || forall i :: 0 <= i < |acts| ==> !acts[i].FailFork?) ==> Exact(Run(eager, s, acts))
    decreases |acts|
  {
    if acts != [] {
      StepSafe(eager, s, acts[0]);
      hide Inv, Owing, Step, Allowed;
      RunSafe(eager, Step(eager, s, acts[0]), acts[1..]);
    }
  }

  function Observed(acts: seq<Action>): seq<Action> {
    if acts == [] then [] else (if acts[0].Visible() then [acts[0]] else []) + Observed(acts[1..])
  }

  ghost function SpecRun(views: Views, acts: seq<Action>): Views
    decreases |acts|
  {
    if acts == [] then views else SpecRun(SpecStep(views, acts[0]), acts[1..])
  }

  lemma SpecRunUnfold(views: Views, acts: seq<Action>)
    requires acts != []
    ensures SpecRun(views, Observed(acts)) == SpecRun(SpecStep(views, acts[0]), Observed(acts[1..]))
  {
    var rest := Observed(acts[1..]);
    hide SpecFork, SpecWrite;
    if acts[0].Visible() {
      assert Observed(acts) == [acts[0]] + rest && ([acts[0]] + rest)[1..] == rest;
    } else {
      assert Observed(acts) == rest;
    }
  }

  lemma RunUnfold(eager: bool, s: State, acts: seq<Action>)
    requires Inv(s) && CanRun(eager, s, acts)
    ensures acts == [] ==> Run(eager, s, acts) == s && SpecRun(ViewOf(s), Observed(acts)) == ViewOf(s)
    ensures acts != [] ==> Enabled(eager, s, acts[0])
    ensures acts != [] ==>
      var t := Step(eager, s, acts[0]);
      Inv(t) && CanRun(eager, t, acts[1..]) && Run(eager, s, acts) == Run(eager, t, acts[1..])
  {
    if acts != [] { StepSafe(eager, s, acts[0]); }
    hide Inv, Step, Enabled, Supplied, ViewOf;
  }

  lemma {:induction false} RunViews(eager: bool, s: State, acts: seq<Action>)
    requires Inv(s) && CanRun(eager, s, acts)
    ensures Inv(Run(eager, s, acts))
    ensures ViewOf(Run(eager, s, acts)) == SpecRun(ViewOf(s), Observed(acts))
    decreases |acts|
  {
    InvBacked(s);
    RunUnfold(eager, s, acts);
    hide Inv, ViewOf, Step, Enabled, Run, CanRun, SpecRun, Observed, Allowed, Backed;
    if acts != [] {
      StepOk(eager, s, acts[0]);
      SpecRunUnfold(ViewOf(s), acts);
      RunViews(eager, Step(eager, s, acts[0]), acts[1..]);
    }
  }

  lemma InvBacked(s: State)
    requires Inv(s)
    ensures Backed(s)
  {
  }

  /** A whole run of either machine shows what the specification shows for the visible actions alone. */
  lemma RunRefines(eager: bool, s: State, acts: seq<Action>)
    requires Inv(s) && CanRun(eager, s, acts)
    ensures Inv(Run(eager, s, acts))
    ensures ViewOf(Run(eager, s, acts)) == SpecRun(ViewOf(s), Observed(acts))
    ensures Exact(s) && (eager || forall i :: 0 <= i < |acts| ==> !acts[i].FailFork?) ==> Exact(Run(eager, s, acts))
  {
    RunSafe(eager, s, acts);
    RunViews(eager, s, acts);
    hide *;
  }

  /** What the invariant says of a mapped page: its frame is not free, is counted, and is private if writable. */
  lemma InvMeans(s: State, a: Va)
    requires Inv(s) && a in s.pt
    ensures s.pt[a].frame in s.frames && s.pt[a].frame !in s.free
    ensures s.frames[s.pt[a].frame].refs >= |Mappers(s.pt, s.pt[a].frame)| >= 1
    ensures s.pt[a].flags.w ==> Mappers(s.pt, s.pt[a].frame) == {a}
  {
    SubsetSize({a}, Mappers(s.pt, s.pt[a].frame));
  }

  /** Both invariants in every state reached from boot, when all frames are free and nothing is mapped. */
  lemma ReachableSafe(eager: bool, free: seq<nat>, acts: seq<Action>)
    requires Distinct(free) && MayRun(eager, State(map[], map[], free), acts)
    ensures var t := Run(eager, State(map[], map[], free), acts);
      && Inv(t)
      && (eager || (forall i :: 0 <= i < |acts| ==> !acts[i].FailFork?) ==> Exact(t))
  {
    RunSafe(eager, State(map[], map[], free), acts);
  }

  /**
   Copy-on-write refines eager copying: start both machines from equal views and let processes
   do the same things; then every page of every address space shows the same bytes and permissions,
   whatever each machine did to its free list in between.
   */
  lemma CowRefinesEager(cow: State, eager: State, acts: seq<Action>, acts': seq<Action>)
    requires Inv(cow) && CanRun(false, cow, acts)
    requires Inv(eager) && CanRun(true, eager, acts')
    requires ViewOf(cow) == ViewOf(eager) && Observed(acts) == Observed(acts')
    ensures Inv(Run(false, cow, acts)) && Inv(Run(true, eager, acts'))
    ensures ViewOf(Run(false, cow, acts)) == ViewOf(Run(true, eager, acts'))
  {
    RunRefines(false, cow, acts);
    RunRefines(true, eager, acts');
  }
}
