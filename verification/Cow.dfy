/**
 User memory with copy-on-write fork, at the level of address spaces as finite maps from pages to
 frames. One machine runs both forks: `eager` selects the page-copying `uvmcopy` of the
 Multithreading lab, its negation the sharing one of the Copy-on-Write lab. What processes can
 observe is `ViewOf`; the specification acts on views alone.
 */
module Cow {
  import opened Counting

  const PGSIZE := 4096

  type Byte = n: nat | n < 256
  type Page = p: seq<Byte> | |p| == PGSIZE witness seq(PGSIZE, _ => 0)

  datatype Flags = Flags(r: bool, w: bool, x: bool, u: bool, cow: bool)
  datatype Leaf = Leaf(frame: nat, flags: Flags)

  /** Page `page` of address space `space`. */
  datatype Va = Va(space: nat, page: nat)

  /** A frame handed out for user data: its contents and its entry in `ref_cnt_tbl`. */
  datatype Frame = Frame(page: Page, refs: int)

  datatype State = State(pt: map<Va, Leaf>, frames: map<nat, Frame>, free: seq<nat>)

  // ---- views ----

  /** A page as `memset` leaves it. */
  function ZeroPage(): (p: Page)
    ensures forall i :: 0 <= i < PGSIZE ==> p[i] == 0
  {
    seq(PGSIZE, _ => 0)
  }

  /** The permissions `uvmalloc` gives. */
  const FULL := Flags(true, true, true, true, false)

  /** What the owner of a page can see of it and do with it; a copy-on-write page is writable. */
  datatype PageView = PageView(page: Page, r: bool, x: bool, u: bool, writable: bool)
  type Views = map<Va, PageView>

  ghost predicate Backed(s: State) {
    forall a :: a in s.pt ==> s.pt[a].frame in s.frames
  }

  function LeafView(l: Leaf, page: Page): PageView {
    PageView(page, l.flags.r, l.flags.x, l.flags.u, l.flags.w || l.flags.cow)
  }

  ghost function ViewOf(s: State): Views
    requires Backed(s)
  {
    map a | a in s.pt :: LeafView(s.pt[a], s.frames[s.pt[a].frame].page)
  }

  // ---- frames ----

  /** The leaf entries that map frame `f`. */
  ghost function Mappers(pt: map<Va, Leaf>, f: nat): set<Va> {
    set a | a in pt && pt[a].frame == f
  }

  /** A frame mapped writable is mapped once. */
  ghost predicate WritableOnce(pt: map<Va, Leaf>) {
    forall a, b :: a in pt && b in pt && pt[a].flags.w && pt[a].frame == pt[b].frame ==> a == b
  }

  ghost predicate Counted(s: State) {
    forall f :: f in s.frames ==> s.frames[f].refs >= |Mappers(s.pt, f)|
  }

  ghost predicate FreeOk(s: State) {
    Distinct(s.free) && forall f :: f in s.free ==> f !in s.frames
  }

  /** The permissions of user pages: `uvmalloc` gives all of them, and none is ever taken away but for copy-on-write. */
  predicate Usable(flags: Flags) {
    (flags.w || flags.cow) && (flags.r || flags.x)
  }

  ghost predicate AllUsable(pt: map<Va, Leaf>) {
    forall a :: a in pt ==> Usable(pt[a].flags)
  }

  ghost predicate Inv(s: State) {
    Backed(s) && FreeOk(s) && Counted(s) && WritableOnce(s.pt) && AllUsable(s.pt)
  }

  /** Every count equals the number of entries that map the frame, plus those still to be made. */
  ghost predicate Owing(s: State, due: map<nat, nat>) {
    forall f :: f in s.frames ==> s.frames[f].refs == |Mappers(s.pt, f)| + if f in due then due[f] else 0
  }

  ghost predicate Exact(s: State) {
    Owing(s, map[])
  }

  // ---- the pieces of kalloc.c and vm.c ----

  /** `kalloc` of a page that is then filled with `page`. */
  ghost function Kalloc(s: State, page: Page): State
    requires s.free != []
  {
    s.(frames := s.frames[s.free[0] := Frame(page, 1)], free := s.free[1..])
  }

  /** `kfree`: the frame goes back to the free list only when its count reaches zero. */
  ghost function Kfree(s: State, f: nat): State
    requires f in s.frames
  {
    var n := s.frames[f].refs - 1;
    if n > 0 then s.(frames := s.frames[f := s.frames[f].(refs := n)])
    else s.(frames := s.frames - {f}, free := [f] + s.free)
  }

  /** `ref_cnt_incr` */
  ghost function Share(s: State, f: nat): State
    requires f in s.frames
  {
    s.(frames := s.frames[f := s.frames[f].(refs := s.frames[f].refs + 1)])
  }

  /** `uvmunmap` of one page with `do_free`. */
  ghost function Unmap(s: State, a: Va): State
    requires a in s.pt && s.pt[a].frame in s.frames
  {
    Kfree(s, s.pt[a].frame).(pt := s.pt - {a})
  }

  /** The contents of the frame behind a page. */
  ghost function Write(s: State, a: Va, page: Page): State
    requires a in s.pt && s.pt[a].frame in s.frames
  {
    var f := s.pt[a].frame;
    s.(frames := s.frames[f := s.frames[f].(page := page)])
  }

  ghost function SetFlags(s: State, a: Va, flags: Flags): State
    requires a in s.pt
  {
    s.(pt := s.pt[a := Leaf(s.pt[a].frame, flags)])
  }

  // ---- how the pieces act on mappers and views ----

  lemma MappersSet(pt: map<Va, Leaf>, a: Va, l: Leaf, f: nat)
    ensures a !in pt ==> Mappers(pt[a := l], f) == if l.frame == f then Mappers(pt, f) + {a} else Mappers(pt, f)
    ensures a in pt && l.frame == pt[a].frame ==> Mappers(pt[a := l], f) == Mappers(pt, f)
  {
  }

  lemma MappersDrop(pt: map<Va, Leaf>, a: Va, f: nat)
    requires a in pt
    ensures Mappers(pt - {a}, f) == if pt[a].frame == f then Mappers(pt, f) - {a} else Mappers(pt, f)
  {
  }

  // ---- one page unmapped ----

  /** A frame that another entry maps survives the unmapping. */
  lemma UnmapBacked(s: State, a: Va)
    requires Inv(s) && a in s.pt
    ensures Backed(Unmap(s, a)) && ViewOf(Unmap(s, a)) == ViewOf(s) - {a}
  {
    var f, t := s.pt[a].frame, Unmap(s, a);
    forall b | b in t.pt ensures t.pt[b].frame in t.frames && t.frames[t.pt[b].frame].page == s.frames[t.pt[b].frame].page {
      if t.pt[b].frame == f { SubsetSize({a, b}, Mappers(s.pt, f)); }
    }
  }

  lemma UnmapCounted(s: State, a: Va, due: map<nat, nat>)
    requires Inv(s) && a in s.pt
    ensures Counted(Unmap(s, a))
    ensures Owing(s, due) ==> Owing(Unmap(s, a), due)
  {
    var t := Unmap(s, a);
    forall f | f in t.frames
      ensures t.frames[f].refs >= |Mappers(t.pt, f)|
      ensures t.frames[f].refs - |Mappers(t.pt, f)| == s.frames[f].refs - |Mappers(s.pt, f)|
    {
      MappersDrop(s.pt, a, f);
    }
  }

  lemma UnmapOk(s: State, a: Va, due: map<nat, nat>)
    requires Inv(s) && a in s.pt
    ensures Inv(Unmap(s, a)) && ViewOf(Unmap(s, a)) == ViewOf(s) - {a}
    ensures Owing(s, due) ==> Owing(Unmap(s, a), due)
  {
    UnmapBacked(s, a);
    UnmapCounted(s, a, due);
    hide Counted, Owing, ViewOf, Backed;
  }

  // ---- one page mapped ----

  lemma KallocOk(s: State, page: Page)
    requires Inv(s) && s.free != []
    ensures Inv(Kalloc(s, page)) && ViewOf(Kalloc(s, page)) == ViewOf(s)
    ensures Mappers(s.pt, s.free[0]) == {}
    ensures Exact(s) ==> Owing(Kalloc(s, page), map[s.free[0] := 1])
  {
    var f := s.free[0];
    assert f !in s.frames;
    assert Mappers(s.pt, f) == {};
  }

  lemma ShareOk(s: State, f: nat)
    requires Inv(s) && f in s.frames
    ensures Inv(Share(s, f)) && ViewOf(Share(s, f)) == ViewOf(s)
    ensures Share(s, f).frames[f].refs > |Mappers(s.pt, f)|
    ensures Exact(s) ==> Owing(Share(s, f), map[f := 1])
  {
  }

  lemma MapOnce(pt: map<Va, Leaf>, a: Va, l: Leaf)
    requires WritableOnce(pt) && a !in pt
    requires l.flags.w ==> Mappers(pt, l.frame) == {}
    requires forall b :: b in pt && pt[b].frame == l.frame ==> !pt[b].flags.w
    ensures WritableOnce(pt[a := l])
  {
    assert forall c :: c in pt && pt[c].frame == l.frame ==> c in Mappers(pt, l.frame);
  }

  lemma MapCounted(s: State, a: Va, l: Leaf)
    requires Counted(s) && a !in s.pt && l.frame in s.frames
    requires s.frames[l.frame].refs > |Mappers(s.pt, l.frame)|
    ensures Counted(s.(pt := s.pt[a := l]))
    ensures Owing(s, map[l.frame := 1]) ==> Exact(s.(pt := s.pt[a := l]))
  {
    var t := s.(pt := s.pt[a := l]);
    forall f ensures |Mappers(t.pt, f)| == |Mappers(s.pt, f)| + if l.frame == f then 1 else 0 {
      MappersSet(s.pt, a, l, f);
    }
  }

  /** A reference taken earlier is turned into an entry; a writable one needs the frame to itself. */
  lemma MapOk(s: State, a: Va, l: Leaf)
    requires Inv(s) && a !in s.pt && l.frame in s.frames && Usable(l.flags)
    requires s.frames[l.frame].refs > |Mappers(s.pt, l.frame)|
    requires l.flags.w ==> Mappers(s.pt, l.frame) == {}
    requires forall b :: b in s.pt && s.pt[b].frame == l.frame ==> !s.pt[b].flags.w
    ensures var t := s.(pt := s.pt[a := l]);
      && Inv(t) && ViewOf(t) == ViewOf(s)[a := LeafView(l, s.frames[l.frame].page)]
      && (Owing(s, map[l.frame := 1]) ==> Exact(t))
  {
    MapOnce(s.pt, a, l);
    MapCounted(s, a, l);
    hide Counted, Owing, WritableOnce;
  }

  lemma FlagsCounted(s: State, a: Va, flags: Flags)
    requires a in s.pt
    ensures Counted(s) ==> Counted(SetFlags(s, a, flags))
    ensures Exact(s) ==> Exact(SetFlags(s, a, flags))
  {
    var l := Leaf(s.pt[a].frame, flags);
    forall f ensures Mappers(s.pt[a := l], f) == Mappers(s.pt, f) { MappersSet(s.pt, a, l, f); }
  }

  lemma FlagsView(s: State, a: Va, flags: Flags)
    requires Backed(s) && a in s.pt
    ensures Backed(SetFlags(s, a, flags))
    ensures ViewOf(SetFlags(s, a, flags)) == ViewOf(s)[a := LeafView(Leaf(s.pt[a].frame, flags), s.frames[s.pt[a].frame].page)]
  {
  }

  /** Flags change in place; an entry never becomes writable this way. */
  lemma FlagsOk(s: State, a: Va, flags: Flags)
    requires Inv(s) && a in s.pt && Usable(flags) && (flags.w ==> s.pt[a].flags.w)
    ensures Inv(SetFlags(s, a, flags))
    ensures ViewOf(SetFlags(s, a, flags)) == ViewOf(s)[a := LeafView(Leaf(s.pt[a].frame, flags), s.frames[s.pt[a].frame].page)]
    ensures Exact(s) ==> Exact(SetFlags(s, a, flags))
  {
    FlagsCounted(s, a, flags);
    FlagsView(s, a, flags);
    hide Counted, Owing, ViewOf;
  }

  lemma WriteView(s: State, a: Va, page: Page)
    requires Backed(s) && a in s.pt && Mappers(s.pt, s.pt[a].frame) == {a}
    ensures Backed(Write(s, a, page))
    ensures ViewOf(Write(s, a, page)) == ViewOf(s)[a := LeafView(s.pt[a], page)]
  {
    assert forall b :: b in s.pt && s.pt[b].frame == s.pt[a].frame ==> b in Mappers(s.pt, s.pt[a].frame);
  }

  /** Writing into a frame that one entry maps changes that entry's view only. */
  lemma WriteOk(s: State, a: Va, page: Page)
    requires Inv(s) && a in s.pt && Mappers(s.pt, s.pt[a].frame) == {a}
    ensures var t := Write(s, a, page);
      && Inv(t) && ViewOf(t) == ViewOf(s)[a := LeafView(s.pt[a], page)]
      && (Exact(s) ==> Exact(t))
  {
    WriteView(s, a, page);
    hide ViewOf, Backed;
  }
}
