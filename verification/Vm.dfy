/**
 `kernel/kalloc.c` and `kernel/vm.c` of the Copy-on-Write lab over physical memory: frames are
 allocated from a list linked through the free frames themselves, counted in `refs`, and hold the
 three-level page tables. Each method is related to the flat machine of `Cow` and `CowRuns` by `Abs`.
 */
module Vm {
  import opened Options
  import opened Counting
  import opened Cow
  import opened CowRuns
  import opened PageTable
  import opened Physical
  import opened CowCopy
  import opened FreeTables

  function Junk(b: Byte): (p: Page)
    ensures forall i :: 0 <= i < 4096 ==> p[i] == b
  {
    seq(PGSIZE, _ => b)
  }

  // ---- the free list ----

  ghost function LinkAt(free: seq<nat>, i: nat): Content
    requires i < |free|
  {
    Link(if i + 1 < |free| then Some(free[i + 1]) else None)
  }

  /** The frames of the free list, first to last, linked through their own contents. */
  ghost predicate ListOk(mem: Memory, freelist: Option<nat>, free: seq<nat>) {
    && Distinct(free)
    && freelist == (if free == [] then None else Some(free[0]))
    && (forall i :: 0 <= i < |free| ==> free[i] < |mem|)
    && (forall i {:trigger mem[free[i]]} :: 0 <= i < |free| ==> mem[free[i]] == LinkAt(free, i))
  }

  lemma Popped(mem: Memory, freelist: Option<nat>, free: seq<nat>, c: Content)
    requires ListOk(mem, freelist, free) && free != []
    ensures mem[free[0]].Link? && ListOk(mem[free[0] := c], mem[free[0]].next, free[1..])
  {
    var mem', rest := mem[free[0] := c], free[1..];
    assert mem[free[0]] == LinkAt(free, 0);
    forall i | 0 <= i < |rest| ensures mem'[rest[i]] == LinkAt(rest, i) {
      assert mem[free[i + 1]] == LinkAt(free, i + 1);
    }
  }

  lemma Pushed(mem: Memory, freelist: Option<nat>, free: seq<nat>, f: nat)
    requires ListOk(mem, freelist, free) && f < |mem| && !mem[f].Link?
    ensures ListOk(mem[f := Link(freelist)], Some(f), [f] + free)
  {
    var mem', more := mem[f := Link(freelist)], [f] + free;
    forall i | 0 <= i < |free| ensures free[i] != f { assert mem[free[i]] == LinkAt(free, i); }
    forall i | 0 <= i < |more| ensures mem'[more[i]] == LinkAt(more, i) {
      if i > 0 { assert mem[free[i - 1]] == LinkAt(free, i - 1); }
    }
  }

  /** Overwriting a frame that is not free leaves the list alone. */
  lemma ListKept(mem: Memory, freelist: Option<nat>, free: seq<nat>, f: nat, c: Content)
    requires ListOk(mem, freelist, free) && f < |mem| && !mem[f].Link?
    ensures ListOk(mem[f := c], freelist, free)
  {
    forall i | 0 <= i < |free| ensures mem[f := c][free[i]] == LinkAt(free, i) {
      assert mem[free[i]] == LinkAt(free, i);
    }
  }

  /** Free frames hold no table and no data. */
  lemma FreeApart(p: Phys, freelist: Option<nat>, free: seq<nat>, i: nat)
    requires Structure(p) && ListOk(p.mem, freelist, free) && i < |free|
    ensures free[i] < |p.mem| == |p.refs| && !IsTable(p.tables, free[i]) && free[i] !in p.data
  {
    assert p.mem[free[i]] == LinkAt(free, i);
    hide PtOf;
  }

  lemma FreedMore(free: seq<nat>, f: nat)
    requires Elements(free) == Below(f)
    ensures Elements([f] + free) == Below(f + 1)
  {
    assert Elements([f] + free) == Elements(free) + {f};
  }

  lemma EmptyTree(mem: Memory, refs: seq<int>)
    requires |mem| == |refs|
    ensures Structure(Phys(mem, refs, map[], {}))
  {
  }

  // ---- growth ----

  /** Tables are added, none moved or removed. */
  ghost predicate Grown(tables: Tables, tables': Tables) {
    forall n :: n in tables ==> n in tables' && tables'[n] == tables[n]
  }

  /** Frames are taken from the front of the free list. */
  ghost predicate Shorter(free: seq<nat>, free': seq<nat>) {
    |free'| <= |free| && free' == free[|free| - |free'|..]
  }

  lemma SameTables(tables: Tables, free: seq<nat>)
    ensures Grown(tables, tables) && Shorter(free, free)
  {
  }

  lemma GrownTwice(t0: Tables, t1: Tables, t2: Tables, f0: seq<nat>, f1: seq<nat>, f2: seq<nat>)
    requires Grown(t0, t1) && Grown(t1, t2) && Shorter(f0, f1) && Shorter(f1, f2)
    ensures Grown(t0, t2) && Shorter(f0, f2)
  {
  }

  lemma GrownOne(tables: Tables, n: Node, f: nat, free: seq<nat>)
    requires n !in tables && free != []
    ensures Grown(tables, tables[n := f]) && Shorter(free, free[1..])
  {
  }

  lemma StillThere(t0: Tables, t1: Tables, n: Node)
    requires Grown(t0, t1) && n in t0
    ensures n in t1 && t1[n] == t0[n]
  {
  }

  /** The tables below the top one on the way to a page, down to `level`. */
  ghost function PathTo(root: nat, level: nat, page: nat): set<Node>
    requires level <= 2
  {
    if level == 2 then {}
    else if level == 1 then {PathNode(root, 1, page)}
    else {PathNode(root, 1, page), PathNode(root, 0, page)}
  }

  /** The tables in `path` exist now, and each that did not took a frame; or there were too few frames. */
  ghost predicate Took(tables: Tables, free: seq<nat>, tables': Tables, free': seq<nat>, path: set<Node>, ok: bool) {
    if ok then tables'.Keys == tables.Keys + path && |free'| == |free| - |path - tables.Keys|
    else |free| < |path - tables.Keys|
  }

  lemma TookNone(tables: Tables, free: seq<nat>)
    ensures Took(tables, free, tables, free, {}, true)
  {
    assert tables.Keys + {} == tables.Keys && {} - tables.Keys == {};
  }

  lemma OneMore(k: set<Node>, p: set<Node>, n: Node)
    requires n !in p
    ensures |p + {n} - k| == |p - k| + |{n} - (k + p)| && k + (p + {n}) == (k + p) + {n}
  {
    var a, b := p - k, {n} - (k + p);
    assert p + {n} - k == a + b && a !! b;
  }

  lemma PathMore(root: nat, level: nat, page: nat)
    requires 0 < level <= 2
    ensures PathNode(root, level - 1, page) !in PathTo(root, level, page)
    ensures PathTo(root, level - 1, page) == PathTo(root, level, page) + {PathNode(root, level - 1, page)} <= PathTo(root, 0, page)
  {
  }

  lemma TookMore(t0: Tables, f0: seq<nat>, t1: Tables, f1: seq<nat>, t2: Tables, f2: seq<nat>, root: nat, level: nat, page: nat, ok: bool)
    requires 0 < level <= 2 && Took(t0, f0, t1, f1, PathTo(root, level, page), true)
    requires Took(t1, f1, t2, f2, {PathNode(root, level - 1, page)}, ok)
    ensures Took(t0, f0, t2, f2, PathTo(root, if ok then level - 1 else 0, page), ok)
  {
    PathMore(root, level, page);
    OneMore(t0.Keys, PathTo(root, level, page), PathNode(root, level - 1, page));
    hide PathTo, PathNode;
    SubsetSize(PathTo(root, level - 1, page) - t0.Keys, PathTo(root, 0, page) - t0.Keys);
  }

  lemma PxSmall(level: nat, va: nat)
    requires level <= 2
    ensures PX(level, va) < ENTRIES
  {
  }

  /** Frame `t` is the lowest table for `va` and `i` its slot there. */
  ghost predicate FoundAt(tables: Tables, root: nat, va: nat, t: nat, i: nat) {
    var a := Va(root, va / PGSIZE);
    va / PGSIZE < MAXPAGES && LeafNode(a) in tables && t == tables[LeafNode(a)] && i == a.page % ENTRIES
  }

  ghost function UserFrame(s: State, root: nat, va: nat): Option<nat> {
    var a := Va(root, va / PGSIZE);
    if a.page < MAXPAGES && a in s.pt && s.pt[a].flags.u then Some(s.pt[a].frame) else None
  }

  // ---- ranges of pages ----

  /** How many pages [va, va + size) touches. */
  function Pages(va: nat, size: nat): nat
    requires size > 0
  {
    (va + size - 1) / PGSIZE - va / PGSIZE + 1
  }

  /** `n` pages from `page` on mapped to `n` frames from `frame` on. */
  ghost function MapRange(pt: map<Va, Leaf>, root: nat, page: nat, n: nat, frame: nat, perm: Flags): map<Va, Leaf> {
    if n == 0 then pt
    else MapRange(pt, root, page, n - 1, frame, perm)[Va(root, page + n - 1) := Leaf(frame + n - 1, perm)]
  }

  /** Exactly the range is added; every other page keeps its entry. */
  lemma {:induction false} MapRangeIs(pt: map<Va, Leaf>, root: nat, page: nat, n: nat, frame: nat, perm: Flags)
    ensures var m := MapRange(pt, root, page, n, frame, perm);
      && (forall p: nat :: page <= p < page + n ==> Va(root, p) in m && m[Va(root, p)] == Leaf(frame + p - page, perm))
      && (forall a: Va :: a.space != root || a.page < page || a.page >= page + n ==>
            (a in m <==> a in pt) && (a in pt ==> m[a] == pt[a]))
  {
    if n > 0 { MapRangeIs(pt, root, page, n - 1, frame, perm); }
  }

  lemma MapRangeNone(pt: map<Va, Leaf>, root: nat, page: nat, frame: nat, perm: Flags)
    ensures MapRange(pt, root, page, 0, frame, perm) == pt
  {
  }

  lemma MapRangeMore(pt: map<Va, Leaf>, root: nat, page: nat, n: nat, frame: nat, perm: Flags)
    ensures MapRange(pt, root, page, n + 1, frame, perm) ==
      MapRange(pt, root, page, n, frame, perm)[Va(root, page + n) := Leaf(frame + n, perm)]
    ensures Va(root, page + n) !in pt ==> Va(root, page + n) !in MapRange(pt, root, page, n, frame, perm)
  {
    MapRangeIs(pt, root, page, n, frame, perm);
  }

  /** The last mapping gone, no entry maps the frame. */
  lemma LastMapping(s: State, a: Va)
    requires Inv(s) && a in s.pt && s.frames[s.pt[a].frame].refs <= 1
    ensures Mappers(s.pt - {a}, s.pt[a].frame) == {}
  {
    var f := s.pt[a].frame;
    assert a in Mappers(s.pt, f) && |Mappers(s.pt, f)| <= 1;
    SubsetSize({a}, Mappers(s.pt, f));
    MappersDrop(s.pt, a, f);
  }

  class Vm {
    var mem: Memory
    var refs: seq<int>
    var freelist: Option<nat>
    /** The free list as a sequence, which frame holds which table, and which frames hold user data. */
    ghost var free: seq<nat>
    ghost var tables: Tables
    ghost var data: set<nat>

    ghost function Now(): Phys
      reads this
    {
      Phys(mem, refs, tables, data)
    }

    ghost predicate Valid()
      reads this
    {
      ListOk(mem, freelist, free) && Structure(Now())
    }

    ghost function Abs(): State
      requires Valid()
      reads this
    {
      AbsOf(Now(), free)
    }

    /** Pop the free list; the frame comes filled with junk and counted once. */
    method Kalloc() returns (r: Option<nat>)
      requires ListOk(mem, freelist, free) && |refs| == |mem|
      modifies this`mem, this`refs, this`freelist, this`free
      ensures r.None? <==> old(free) == []
      ensures r.None? ==> unchanged(this)
      ensures r.Some? ==>
        && r.value == old(free)[0]
        && mem == old(mem)[r.value := Bytes(Junk(5))]
        && refs == old(refs)[r.value := 1]
        && free == old(free)[1..]
        && ListOk(mem, freelist, free)
    {
      r := freelist;
      if r.Some? {
        Popped(mem, freelist, free, Bytes(Junk(5)));
        freelist := mem[r.value].next;
        refs := refs[r.value := 1];
        mem := mem[r.value := Bytes(Junk(5))];
        free := free[1..];
      }
    }

    /** Drop one reference; the last one puts the frame on the free list. */
    method Kfree(f: nat)
      requires ListOk(mem, freelist, free) && |refs| == |mem| && f < |mem| && !mem[f].Link?
      modifies this`mem, this`refs, this`freelist, this`free
      ensures refs == old(refs)[f := old(refs)[f] - 1]
      ensures ListOk(mem, freelist, free)
      ensures old(refs)[f] > 1 ==> mem == old(mem) && free == old(free)
      ensures old(refs)[f] <= 1 ==> free == [f] + old(free) && mem == old(mem)[f := Link(old(freelist))]
    {
      refs := refs[f := refs[f] - 1];
      if refs[f] > 0 { return; }
      Pushed(mem, freelist, free, f);
      mem := mem[f := Bytes(Junk(1))];
      mem := mem[f := Link(freelist)];
      freelist := Some(f);
      free := [f] + free;
    }

    /** Memory at boot: `n` frames, none of them on the free list yet. */
    constructor (n: nat)
      ensures |mem| == |refs| == n && (forall f :: 0 <= f < n ==> refs[f] == 0 && mem[f].Bytes?)
      ensures ListOk(mem, freelist, free) && free == [] && tables == map[] && data == {}
    {
      mem := seq(n, _ => Bytes(Junk(0)));
      refs := seq(n, _ => 0);
      freelist := None;
      free := [];
      tables := map[];
      data := {};
    }

    /** Every frame is freed once, starting from a count of zero. */
    method Freerange()
      requires |mem| == |refs| && (forall f :: 0 <= f < |mem| ==> refs[f] == 0 && mem[f].Bytes?)
      requires ListOk(mem, freelist, free) && free == [] && tables == map[] && data == {}
      modifies this
      ensures Valid() && |mem| == old(|mem|) && Elements(free) == Below(|mem|)
      ensures tables == map[] && data == {}
    {
      var f := 0;
      while f < |mem|
        invariant 0 <= f <= |mem| == |refs| == old(|mem|) && tables == map[] && data == {}
        invariant ListOk(mem, freelist, free)
        invariant Elements(free) == Below(f)
        invariant forall g :: f <= g < |mem| ==> refs[g] == 0 && mem[g].Bytes?
      {
        hide ListOk, Below, Elements;
        FreedMore(free, f);
        Kfree(f);
        f := f + 1;
      }
      EmptyTree(mem, refs);
      hide ListOk, Below, Elements, Structure;
    }

    // ---- walk ----

    /** The part of `walk` that fills an invalid entry: a zeroed page is hung from it as a table. */
    method GrowTable(t: nat, i: nat, ghost n: Node) returns (r: Option<nat>)
      requires Valid() && n in tables && n.level > 0 && tables[n] == t && i < ENTRIES && n.Child(i) !in tables
      modifies this
      ensures Valid() && data == old(data) && Abs() == old(Abs()).(free := free)
      ensures r.None? <==> old(free) == []
      ensures r.None? ==> unchanged(this)
      ensures r.Some? ==> tables == old(tables)[n.Child(i) := r.value] && free == old(free)[1..]
    {
      hide ListOk, Structure, AbsOf, Zeroed, Junk;
      ghost var p, free0 := Now(), free;
      FreeSwap(p, free, free);
      TableAt(p, n);
      FollowLink(p, n, i);
      r := Kalloc();
      if r.Some? {
        var f := r.value;
        FreeApart(p, old(freelist), free0, 0);
        assert f != t;
        HungOk(p, n, i, f, free0);
        ListKept(mem, freelist, free, f, Table(Zeroed()));
        mem := mem[f := Table(Zeroed())];
        ListKept(mem, freelist, free, t, Table(mem[t].t[i := Pte(true, f, NOFLAGS)]));
        mem := mem[t := Table(mem[t].t[i := Pte(true, f, NOFLAGS)])];
        tables := tables[n.Child(i) := f];
        assert mem == Hung(p.mem, t, i, f);
        FreeSwap(Now(), free0, free);
        FreeSwap(p, free0, free);
      }
    }

    /** One level of `walk`. */
    method Descend(t: nat, i: nat, alloc: bool, ghost n: Node) returns (r: Option<nat>)
      requires Valid() && n in tables && n.level > 0 && tables[n] == t && i < ENTRIES
      modifies this
      ensures Valid() && data == old(data) && Abs() == old(Abs()).(free := free)
      ensures Grown(old(tables), tables) && Shorter(old(free), free)
      ensures r.Some? ==> n.Child(i) in tables && r.value == tables[n.Child(i)]
      ensures r.None? && alloc ==> free == []
      ensures alloc ==> Took(old(tables), old(free), tables, free, {n.Child(i)}, r.Some?)
      ensures !alloc || n.Child(i) in old(tables) ==> unchanged(this)
      ensures !alloc || n.Child(i) in old(tables) ==> (r.Some? <==> n.Child(i) in tables)
    {
      hide ListOk, Structure, AbsOf, Grown, Shorter;
      TableAt(Now(), n);
      FollowLink(Now(), n, i);
      SameTables(tables, free);
      FreeSwap(Now(), free, free);
      var pte := mem[t].t[i];
      if pte.v {
        r := Some(pte.frame);
      } else if !alloc {
        r := None;
      } else {
        if free != [] { GrownOne(tables, n.Child(i), free[0], free); }
        ghost var tables0 := tables;
        r := GrowTable(t, i, n);
        if r.Some? { GrownOne(tables0, n.Child(i), r.value, old(free)); }
      }
    }

    /**
     The table frame and slot of the entry for `va`. With `alloc`, tables missing on the way are
     made; that takes frames from the free list but changes no mapping.
     */
    method Walk(root: nat, va: nat, alloc: bool) returns (r: Option<nat>, i: nat)
      requires Valid() && Root(root) in tables
      modifies this
      ensures Valid() && data == old(data) && Abs() == old(Abs()).(free := free)
      ensures Grown(old(tables), tables) && Shorter(old(free), free)
      ensures !alloc ==> unchanged(this)
      ensures va / PGSIZE < MAXPAGES && LeafNode(Va(root, va / PGSIZE)) in old(tables) ==> r.Some? && unchanged(this)
      ensures r.Some? ==> va < 0x40_0000_0000 && FoundAt(tables, root, va, r.value, i)
      ensures alloc && va / PGSIZE < MAXPAGES ==> Took(old(tables), old(free), tables, free, PathTo(root, 0, va / PGSIZE), r.Some?)
      ensures r.None? ==>
        || va / PGSIZE >= MAXPAGES
        || (alloc && free == [])
        || (!alloc && LeafNode(Va(root, va / PGSIZE)) !in tables)
    {
      hide ListOk, Structure, AbsOf, Grown, Shorter, PX, Prefix, Took;
      i := 0;
      r := None;
      SameTables(tables, free);
      TookNone(tables, free);
      FreeSwap(Now(), free, free);
      if va / PGSIZE >= MAXPAGES { return; }
      PathEnds(root, va);
      ghost var known := PathNode(root, 0, va / PGSIZE) in tables;
      if known { PathKnown(Now(), root, va / PGSIZE); }
      var t, level := root, 2;
      TableAt(Now(), Root(root));
      while level > 0
        invariant 0 <= level <= 2
        invariant Valid() && data == old(data) && Abs() == old(Abs()).(free := free)
        invariant Grown(old(tables), tables) && Shorter(old(free), free)
        invariant alloc ==> Took(old(tables), old(free), tables, free, PathTo(root, level, va / PGSIZE), true)
        invariant !alloc || known ==> unchanged(this)
        invariant PathNode(root, level, va / PGSIZE) in tables && tables[PathNode(root, level, va / PGSIZE)] == t
        decreases level
      {
        ghost var tables0, free0 := tables, free;
        PathChild(root, level, va);
        PxSmall(level, va);
        r := Descend(t, PX(level, va), alloc, PathNode(root, level, va / PGSIZE));
        GrownTwice(old(tables), tables0, tables, old(free), free0, free);
        if alloc { TookMore(old(tables), old(free), tables0, free0, tables, free, root, level, va / PGSIZE, r.Some?); }
        if r.None? {
          if !alloc { NotBelow(Now(), root, level, va / PGSIZE); }
          return;
        }
        t, level := r.value, level - 1;
      }
      r, i := Some(t), PX(0, va);
    }

    /** `walk` without `alloc`, which changes nothing. */
    method Lookup(root: nat, va: nat) returns (r: Option<nat>, i: nat)
      requires Valid() && Root(root) in tables
      ensures r.Some? ==> FoundAt(tables, root, va, r.value, i)
      ensures r.None? <==> va >= 0x40_0000_0000 || LeafNode(Va(root, va / PGSIZE)) !in tables
    {
      hide ListOk, Structure, AbsOf, PX, Prefix;
      i := 0;
      r := None;
      if va / PGSIZE >= MAXPAGES { return; }
      PathEnds(root, va);
      var t, level := root, 2;
      TableAt(Now(), Root(root));
      while level > 0
        invariant 0 <= level <= 2
        invariant PathNode(root, level, va / PGSIZE) in tables && tables[PathNode(root, level, va / PGSIZE)] == t
        decreases level
      {
        PathChild(root, level, va);
        PxSmall(level, va);
        FollowLink(Now(), PathNode(root, level, va / PGSIZE), PX(level, va));
        var pte := mem[t].t[PX(level, va)];
        if !pte.v {
          NotBelow(Now(), root, level, va / PGSIZE);
          return;
        }
        t, level := pte.frame, level - 1;
      }
      r, i := Some(t), PX(0, va);
    }

    /** The frame behind a user page, if there is one. */
    method WalkAddr(root: nat, va: nat) returns (r: Option<nat>)
      requires Valid() && Root(root) in tables
      ensures r == UserFrame(Abs(), root, va)
    {
      r := None;
      if va / PGSIZE >= MAXPAGES { return; }
      var t, i := Lookup(root, va);
      hide ListOk, Structure, AbsOf;
      PtAt(Now(), Va(root, va / PGSIZE), free);
      if t.None? { return; }
      var pte := mem[t.value].t[i];
      if !pte.v || !pte.flags.u { return; }
      r := Some(pte.frame);
    }

    // ---- mapping ----

    /** `*pte = e` at the slot that `walk` found for page `a`. */
    method StorePte(t: nat, i: nat, e: Pte, ghost a: Va)
      requires Valid() && LeafNode(a) in tables && t == tables[LeafNode(a)] && i == a.page % ENTRIES
      requires e.v ==> e.frame in data && (e.flags.r || e.flags.w || e.flags.x)
      modifies this`mem
      ensures Valid()
      ensures Abs() == old(Abs()).(pt := WithPte(old(Abs()).pt, a, e))
    {
      hide ListOk, Structure, AbsOf;
      TableAt(Now(), LeafNode(a));
      StoredOk(Now(), a, e, free);
      ListKept(mem, freelist, free, t, Table(mem[t].t[i := e]));
      mem := mem[t := Table(mem[t].t[i := e])];
    }

    /** The body of the loop of `mappages`: one entry for one page. */
    method MapOne(root: nat, page: nat, frame: nat, perm: Flags) returns (ok: bool)
      requires Valid() && Root(root) in tables
      requires frame in data && (perm.r || perm.w || perm.x) && Va(root, page) !in Abs().pt
      modifies this
      ensures Valid() && data == old(data) && Grown(old(tables), tables) && Shorter(old(free), free)
      ensures Abs() == old(Abs()).(free := free, pt := if ok then old(Abs()).pt[Va(root, page) := Leaf(frame, perm)] else old(Abs()).pt)
      ensures ok ==> page < MAXPAGES
      ensures !ok ==> page >= MAXPAGES || free == []
      ensures page < MAXPAGES ==> Took(old(tables), old(free), tables, free, PathTo(root, 0, page), ok)
      ensures page < MAXPAGES && LeafNode(Va(root, page)) in old(tables) ==> ok && free == old(free) && tables == old(tables)
    {
      hide ListOk, Structure, AbsOf, Grown, Shorter, Took;
      Aligned(page);
      var t, i := Walk(root, page * PGSIZE, true);
      if t.None? { return false; }
      StorePte(t.value, i, Pte(true, frame, perm), Va(root, page));
      ok := true;
    }

    /** `done` pages from `first` on are mapped, since the state was `s`; some tables may be new. */
    ghost predicate Mapping(s: State, t0: Tables, d0: set<nat>, root: nat, first: nat, done: nat, frame: nat, perm: Flags)
      reads this
    {
      && Valid() && data == d0 && Grown(t0, tables) && Shorter(s.free, free) && Root(root) in tables
      && Abs() == s.(free := free, pt := MapRange(s.pt, root, first, done, frame, perm))
      && (done == 0 ==> free == s.free && tables == t0)
    }

    method MapNext(root: nat, a: nat, pa: nat, perm: Flags, ghost s: State, ghost t0: Tables, ghost d0: set<nat>,
                   ghost first: nat, ghost done: nat) returns (ok: bool)
      requires first + done == a && pa >= done && Mapping(s, t0, d0, root, first, done, pa - done, perm)
      requires pa in d0 && (perm.r || perm.w || perm.x) && Va(root, a) !in s.pt
      modifies this
      ensures ok ==> Mapping(s, t0, d0, root, first, done + 1, pa - done, perm)
      ensures Valid() && data == d0 && Grown(t0, tables) && Shorter(s.free, free)
      ensures !ok ==> Abs() == s.(free := free, pt := MapRange(s.pt, root, first, done, pa - done, perm))
      ensures !ok ==> a >= MAXPAGES || free == []
      ensures ok ==> a < MAXPAGES
      ensures a < MAXPAGES ==> Took(old(tables), old(free), tables, free, PathTo(root, 0, a), ok)
      ensures done == 0 && a < MAXPAGES && LeafNode(Va(root, a)) in t0 ==> ok && free == s.free && tables == t0
    {
      hide ListOk, Structure, AbsOf, Grown, Shorter, LeafNode, MapRange, Took, PathTo;
      ghost var t1, f1 := tables, free;
      MapRangeMore(s.pt, root, first, done, pa - done, perm);
      ok := MapOne(root, a, pa, perm);
      StillThere(t1, tables, Root(root));
      GrownTwice(t0, t1, tables, s.free, f1, free);
    }

    /** The loop of `mappages`, over page numbers `a` to `last`. */
    method MapLoop(root: nat, first: nat, last: nat, frame: nat, perm: Flags) returns (ok: bool, ghost done: nat)
      requires Valid() && Root(root) in tables && first <= last && (perm.r || perm.w || perm.x)
      requires forall p: nat :: first <= p <= last ==> Va(root, p) !in Abs().pt
      requires forall f: nat :: frame <= f <= frame + last - first ==> f in data
      modifies this
      ensures Valid() && data == old(data) && Grown(old(tables), tables) && Shorter(old(free), free)
      ensures if ok then done == last - first + 1 else done <= last - first
      ensures Abs() == old(Abs()).(free := free, pt := MapRange(old(Abs()).pt, root, first, done, frame, perm))
      ensures !ok ==> first + done >= MAXPAGES || free == []
      ensures ok <==> last < MAXPAGES && |old(free)| >= FramesNeeded(old(tables).Keys, root, first, last - first + 1, 0)
      ensures first == last < MAXPAGES && LeafNode(Va(root, first)) in old(tables) ==> ok && free == old(free) && tables == old(tables)
    {
      hide ListOk, Structure, AbsOf, Grown, Shorter, LeafNode, MapRange, Took, PathTo, FramesNeeded;
      ghost var s, t0, d0, t1, f1 := Abs(), tables, data, tables, free;
      ghost var short := FramesNeeded(tables.Keys, root, first, last - first + 1, 0) - |free|;
      SameTables(tables, free);
      FreeSwap(Now(), free, free);
      MapRangeNone(s.pt, root, first, frame, perm);
      var a, pa := first, frame;
      done := 0;
      ok := MapNext(root, a, pa, perm, s, t0, d0, first, done);
      if a < MAXPAGES { NeedTook(t1, f1, tables, free, root, a, last - a + 1, ok); }
      while ok && a != last
        invariant first <= a == first + done <= last && pa == frame + done
        invariant ok ==> Mapping(s, t0, d0, root, first, done + 1, frame, perm)
        invariant Valid() && data == d0 && Grown(t0, tables) && Shorter(s.free, free)
        invariant !ok ==> Abs() == s.(free := free, pt := MapRange(s.pt, root, first, done, frame, perm))
        invariant !ok ==> a >= MAXPAGES || free == []
        invariant if ok then a < MAXPAGES && FramesNeeded(tables.Keys, root, a + 1, last - a, 0) - |free| == short else a >= MAXPAGES || short > 0
        invariant done == 0 && a < MAXPAGES && LeafNode(Va(root, a)) in t0 ==> ok && free == s.free && tables == t0
        decreases last - a, ok
      {
        a, pa, done, t1, f1 := a + 1, pa + 1, done + 1, tables, free;
        ok := MapNext(root, a, pa, perm, s, t0, d0, first, done);
        if a < MAXPAGES { NeedTook(t1, f1, tables, free, root, a, last - a + 1, ok); }
      }
      NeedNone(tables.Keys, root, a + 1, 0);
      if ok { done := done + 1; }
    }

    /**
     Map the pages of [va, va + size) to consecutive frames from `frame` on. When a table page is
     missing and cannot be allocated it stops, and the pages mapped so far stay mapped.
     */
    method MapPages(root: nat, va: nat, size: nat, frame: nat, perm: Flags) returns (ok: bool, ghost done: nat)
      requires Valid() && Root(root) in tables && size > 0 && (perm.r || perm.w || perm.x)
      requires forall p: nat :: va / PGSIZE <= p <= (va + size - 1) / PGSIZE ==> Va(root, p) !in Abs().pt
      requires forall f: nat :: frame <= f < frame + Pages(va, size) ==> f in data
      modifies this
      ensures Valid() && data == old(data) && Grown(old(tables), tables) && Shorter(old(free), free)
      ensures if ok then done == Pages(va, size) else done < Pages(va, size)
      ensures Abs() == old(Abs()).(free := free, pt := MapRange(old(Abs()).pt, root, va / PGSIZE, done, frame, perm))
      ensures !ok ==> va / PGSIZE + done >= MAXPAGES || free == []
      ensures ok <==> (va + size - 1) / PGSIZE < MAXPAGES && |old(free)| >= FramesNeeded(old(tables).Keys, root, va / PGSIZE, Pages(va, size), 0)
      ensures Pages(va, size) == 1 && va / PGSIZE < MAXPAGES && LeafNode(Va(root, va / PGSIZE)) in old(tables) ==>
        ok && free == old(free) && tables == old(tables)
    {
      hide ListOk, Structure, AbsOf, Grown, Shorter, LeafNode, MapRange;
      ok, done := MapLoop(root, va / PGSIZE, (va + size - 1) / PGSIZE, frame, perm);
    }

    // ---- unmapping ----

    /** The body of the loop of `uvmunmap`, at the slot found for page `a`. */
    method UnmapOne(t: nat, i: nat, doFree: bool, ghost a: Va)
      requires Valid() && LeafNode(a) in tables && t == tables[LeafNode(a)] && i == a.page % ENTRIES
      requires a in Abs().pt && (doFree ==> Inv(Abs()))
      modifies this
      ensures Valid() && tables == old(tables)
      ensures Abs() == if doFree then UnmapPage(old(Abs()), a) else old(Abs()).(pt := old(Abs()).pt - {a})
    {
      hide ListOk, Structure, AbsOf;
      ghost var p, s, next := Now(), Abs(), freelist;
      TableAt(p, LeafNode(a));
      PtAt(p, a, free);
      StoredOk(p, a, EMPTY, free);
      FreeSwap(p, free, free);
      ghost var q := Stored(p, a, EMPTY);
      var f := mem[t].t[i].frame;
      DataAt(p, f);
      if doFree {
        if refs[f] > 1 {
          WithCountOk(q, f, refs[f] - 1, free);
        } else {
          LastMapping(s, a);
          FreedOk(q, f, next, free);
        }
        Kfree(f);
        if p.refs[f] <= 1 {
          data := data - {f};
          FreeSwap(Freed(q, f, next), old(free), free);
        }
      }
      ListKept(mem, freelist, free, t, Table(mem[t].t[i := EMPTY]));
      mem := mem[t := Table(mem[t].t[i := EMPTY])];
      assert Now() == if !doFree then q else if p.refs[f] > 1 then WithCount(q, f, p.refs[f] - 1) else Freed(q, f, next);
      assert s.pt[a].frame == f && f in s.frames && s.frames[f].refs == p.refs[f];
    }

    /** Remove the entries of `npages` pages, which must all be there, perhaps dropping their frames. */
    method UvmUnmap(root: nat, va: nat, npages: nat, doFree: bool)
      requires Valid() && Root(root) in tables && va % PGSIZE == 0 && (doFree ==> Inv(Abs()))
      requires va / PGSIZE + npages <= MAXPAGES
      requires forall p: nat :: va / PGSIZE <= p < va / PGSIZE + npages ==> Va(root, p) in Abs().pt
      modifies this
      ensures Valid() && tables == old(tables)
      ensures Abs() == Unmapped(old(Abs()), root, va / PGSIZE, npages, doFree)
    {
      hide ListOk, Structure, AbsOf, Inv, UnmapPage;
      var first := va / PGSIZE;
      ghost var s := Abs();
      var k := 0;
      while k < npages
        invariant 0 <= k <= npages && Valid() && tables == old(tables)
        invariant Abs() == Unmapped(s, root, first, k, doFree)
      {
        ghost var a := Va(root, first + k);
        Aligned(first + k);
        var t, i := Lookup(root, (first + k) * PGSIZE);
        PtAt(Now(), a, free);
        UnmappedKeeps(s, root, first, k, doFree, a);
        UnmappedMore(s, root, first, k, doFree);
        hide Unmapped;
        UnmapOne(t.value, i, doFree, a);
        k := k + 1;
      }
    }

    // ---- page faults ----

    /** `kalloc` of a data page that is then filled with `page`. */
    method AllocData(page: Page) returns (r: Option<nat>)
      requires Valid()
      modifies this
      ensures Valid() && tables == old(tables)
      ensures r.None? <==> old(free) == []
      ensures r.None? ==> unchanged(this)
      ensures r.Some? ==> r.value == old(free)[0] && data == old(data) + {r.value} && r.value !in old(data)
      ensures r.Some? ==> old(free) == old(Abs()).free && Abs() == Cow.Kalloc(old(Abs()), page) && free == old(free)[1..]
    {
      hide ListOk, Structure, AbsOf, Junk;
      ghost var p, free0 := Now(), free;
      FreeSwap(p, free0, free0);
      Sizes(p);
      r := this.Kalloc();
      if r.Some? {
        var f := r.value;
        FreeApart(p, old(freelist), free0, 0);
        NewDataOk(p, f, page, free0);
        ListKept(mem, freelist, free, f, Bytes(page));
        mem := mem[f := Bytes(page)];
        data := data + {f};
        assert Now() == NewData(p, f, page);
        FreeSwap(Now(), free0, free);
      }
    }

    /**
     Give the page a private copy, when it is a user's copy-on-write page and there is memory for
     it; in all other cases refuse and change nothing.
     */
    method PgfaultHandler(root: nat, va: nat) returns (ok: bool)
      requires Valid() && Root(root) in tables && Inv(Abs()) && va % PGSIZE == 0
      modifies this
      ensures Valid() && tables == old(tables) && Inv(Abs())
      ensures ok <==> CanFault(old(Abs()), Va(root, va / PGSIZE)) && old(free) != []
      ensures !ok ==> unchanged(this)
      ensures ok ==> old(Abs()).free != [] && Abs() == Fault(old(Abs()), Va(root, va / PGSIZE))
    {
      hide ListOk, Structure, AbsOf, Inv, Fault;
      ghost var s, a := Abs(), Va(root, va / PGSIZE);
      FreeSwap(Now(), free, free);
      PtAt(Now(), a, free);
      var t, i := Lookup(root, va);
      if t.None? { return false; }
      var pte := mem[t.value].t[i];
      if !pte.v || !pte.flags.u || !pte.flags.cow { return false; }
      DataAt(Now(), pte.frame);
      var page := mem[pte.frame].page;
      var f := AllocData(page);
      if f.None? { return false; }
      FaultSteps(s, a, page);
      UvmUnmap(root, va, 1, true);
      ghost var pt := Abs().pt;
      FreeSwap(Now(), free, free);
      OnePage(va);
      DataIff(Now(), f.value, free);
      ghost var done;
      ok, done := MapPages(root, va, PGSIZE, f.value, pte.flags.(w := true));
      MapRangeMore(pt, root, va / PGSIZE, 0, f.value, pte.flags.(w := true));
    }

    // ---- fork ----

    /** `ref_cnt_incr` */
    method RefCntIncr(f: nat)
      requires Valid() && f in data
      modifies this`refs
      ensures Valid()
      ensures f in old(Abs()).frames && Abs() == Share(old(Abs()), f)
    {
      hide ListOk, Structure, AbsOf;
      DataAt(Now(), f);
      WithCountOk(Now(), f, refs[f] + 1, free);
      refs := refs[f := refs[f] + 1];
    }

    /** The body of the loop of `uvmcopy`. */
    method ShareOne(p: nat, c: nat, page: nat) returns (ok: bool)
      requires Valid() && Root(p) in tables && Root(c) in tables && page < MAXPAGES && p != c
      requires Va(p, page) in Abs().pt && Va(c, page) !in Abs().pt
      requires Abs().pt[Va(p, page)].flags.r || Abs().pt[Va(p, page)].flags.x
      modifies this
      ensures Valid() && data == old(data) && Grown(old(tables), tables) && Shorter(old(free), free)
      ensures old(Abs()).pt[Va(p, page)].frame in old(Abs()).frames
      ensures ok ==> Abs() == SharePage(old(Abs()), Va(p, page), Va(c, page)).(free := free)
      ensures !ok ==> free == [] && Abs() == Share(old(Abs()), old(Abs()).pt[Va(p, page)].frame).(free := free)
      ensures Took(old(tables), old(free), tables, free, PathTo(c, 0, page), ok)
    {
      hide ListOk, Structure, AbsOf, Grown, Shorter, Took, PathTo;
      Aligned(page);
      ghost var a := Va(p, page);
      PtAt(Now(), a, free);
      var t, i := Lookup(p, page * PGSIZE);
      var pte := mem[t.value].t[i];
      RefCntIncr(pte.frame);
      ghost var tables0 := tables;
      ok := MapOne(c, page, pte.frame, Cowed(pte.flags));
      if !ok { return; }
      StillThere(tables0, tables, LeafNode(a));
      StorePte(t.value, i, Pte(true, pte.frame, Cowed(pte.flags)), a);
    }

    /** The error path of `uvmcopy`, at page `i`. */
    method GiveUp(p: nat, c: nat, i: nat, ghost s: State, ghost n: nat, ghost free0: seq<nat>)
      requires Valid() && Root(c) in tables && i < n <= MAXPAGES && Inv(s) && CanFork(false, s, p, c, n)
      requires GaveUpAt(s, p, c, i, free0, Abs())
      modifies this
      ensures Valid() && tables == old(tables) && Abs() == FailedFork(s.(free := []), p, c, i)
      ensures Inv(Abs()) && Backed(s) && ViewOf(Abs()) == ViewOf(s)
    {
      hide ListOk, Structure, AbsOf, Inv, FailedFork, ViewOf, CanFork, GaveUpAt, Unmapped;
      InvBacked(s);
      ForkGivesUp(s, p, c, i, n, free0, Abs());
      UvmUnmap(c, 0, i, true);
    }

    /** The loop of `uvmcopy` has shared `i` pages, since the state was `s`; some tables may be new. */
    ghost predicate Sharing(s: State, t0: Tables, p: nat, c: nat, i: nat)
      reads this
    {
      && Valid() && Grown(t0, tables) && Shorter(s.free, free) && Root(p) in tables && Root(c) in tables
      && Abs() == ForkPages(false, s, p, c, i).(free := free)
    }

    /** One turn of the loop, error path and all. */
    method ShareNext(p: nat, c: nat, i: nat, ghost s: State, ghost t0: Tables, ghost n: nat) returns (ok: bool)
      requires Sharing(s, t0, p, c, i) && Inv(s) && CanFork(false, s, p, c, n) && i < n <= MAXPAGES
      modifies this
      ensures ok ==> Sharing(s, t0, p, c, i + 1)
      ensures !ok ==> Valid() && Grown(t0, tables) && Abs() == FailedFork(s.(free := []), p, c, i)
      ensures !ok ==> Inv(Abs()) && Backed(s) && ViewOf(Abs()) == ViewOf(s)
      ensures ok ==> Took(old(tables), old(free), tables, free, PathTo(c, 0, i), true)
      ensures !ok ==> |old(free)| < |PathTo(c, 0, i) - old(tables).Keys|
    {
      hide ListOk, Structure, AbsOf, Grown, Shorter, Inv, ForkPages, SharePage, FailedFork, ViewOf, CanFork, Share, PathTo;
      ghost var tables0, free0 := tables, free;
      ForkReady(s, p, c, i, n);
      ok := ShareOne(p, c, i);
      StillThere(tables0, tables, Root(p));
      StillThere(tables0, tables, Root(c));
      GrownTwice(t0, tables0, tables, s.free, free0, free);
      ForkMore(s, p, c, i, n, free0, free);
      if !ok { GiveUp(p, c, i, s, n, free0); }
    }

    /**
     Copy-on-write fork of pages 0 to npages - 1. When a table page for the child cannot be
     allocated, the pages mapped so far are unmapped again.
     */
    method UvmCopy(p: nat, c: nat, npages: nat) returns (ok: bool, ghost done: nat)
      requires Valid() && Root(p) in tables && Root(c) in tables && Inv(Abs())
      requires npages <= MAXPAGES && CanFork(false, Abs(), p, c, npages)
      modifies this
      ensures Valid() && Grown(old(tables), tables) && Inv(Abs())
      ensures ok ==> Abs() == ForkPages(false, old(Abs()), p, c, npages).(free := free) && Shorter(old(free), free)
      ensures !ok ==> done < npages && Abs() == FailedFork(old(Abs()).(free := []), p, c, done)
      ensures ViewOf(Abs()) == if ok then SpecFork(ViewOf(old(Abs())), p, c, npages) else ViewOf(old(Abs()))
      ensures ok <==> |old(free)| >= FramesNeeded(old(tables).Keys, c, 0, npages, 0)
    {
      hide ListOk, Structure, AbsOf, Grown, Shorter, Inv, ForkPages, FailedFork, ViewOf, CanFork, Took, PathTo, FramesNeeded, SpecFork;
      ghost var s, t0 := Abs(), tables;
      ghost var short := FramesNeeded(tables.Keys, c, 0, npages, 0) - |free|;
      done := 0;
      var i := 0;
      SameTables(tables, free);
      ForkStart(s, p, c, free);
      FreeSwap(Now(), free, free);
      while i < npages
        invariant 0 <= i == done <= npages && Sharing(s, t0, p, c, i)
        invariant FramesNeeded(tables.Keys, c, i, npages - i, 0) - |free| == short
      {
        ghost var tables0, free0 := tables, free;
        ok := ShareNext(p, c, i, s, t0, npages);
        if !ok {
          NeedMore(tables0.Keys, c, i, npages - i, 0);
          return;
        }
        NeedTook(tables0, free0, tables, free, c, i, npages - i, true);
        i := i + 1;
        done := i;
      }
      ok := true;
      NeedNone(tables.Keys, c, i, 0);
      ForkEnds(s, p, c, npages, free);
    }

    // ---- copying to and from user memory ----

    /** `memmove` into the frame behind page `a`. */
    method WriteUser(f: nat, off: nat, src: seq<Byte>, ghost a: Va)
      requires Valid() && a in Abs().pt && Abs().pt[a].frame == f && off + |src| <= PGSIZE
      modifies this`mem
      ensures Valid() && f in old(Abs()).frames && Abs() == WriteAt(old(Abs()), a, off, src)
    {
      hide ListOk, Structure, AbsOf, Splice;
      PtAt(Now(), a, free);
      DataAt(Now(), f);
      var page := Splice(mem[f].page, off, src);
      WithPageOk(Now(), f, page, free);
      ListKept(mem, freelist, free, f, Bytes(page));
      mem := mem[f := Bytes(page)];
    }

    /** Copy `src` to user addresses from `dstva` on, page by page. */
    method Copyout(root: nat, dstva: nat, src: seq<Byte>) returns (ok: bool)
      requires Valid() && Root(root) in tables && Inv(Abs())
      modifies this
      ensures Valid() && tables == old(tables) && Inv(Abs())
      ensures (Abs(), ok) == CopyoutAll(old(Abs()), root, dstva, src)
      ensures ok <==> UserRange(ViewOf(old(Abs())), root, dstva, |src|)
      ensures ok && NeverShort(old(Abs()), root, dstva, src) ==> Copied(ViewOf(old(Abs())), ViewOf(Abs()), root, dstva, src)
    {
      hide ListOk, Structure, AbsOf, Inv, CopyoutAll, UserRange, Copied, NeverShort, ViewOf;
      CopyoutAllMeans(Abs(), root, dstva, src);
      ok := CopyoutLoop(root, dstva, src);
    }

    method CopyoutLoop(root: nat, dstva: nat, src: seq<Byte>) returns (ok: bool)
      requires Valid() && Root(root) in tables && Inv(Abs())
      modifies this
      ensures Valid() && tables == old(tables) && Inv(Abs())
      ensures (Abs(), ok) == CopyoutAll(old(Abs()), root, dstva, src)
    {
      hide ListOk, Structure, AbsOf, Inv, CowRuns.Copyout, Fault, WriteAt, Splice;
      var va: nat, rest: seq<Byte> := dstva, src;
      while rest != []
        invariant Valid() && tables == old(tables) && Inv(Abs())
        invariant CopyoutAll(Abs(), root, va, rest) == CopyoutAll(old(Abs()), root, dstva, src)
        decreases |rest|
      {
        ghost var s, a := Abs(), Va(root, va / PGSIZE);
        var va0 := va / PGSIZE * PGSIZE;
        Aligned(va / PGSIZE);
        FreeSwap(Now(), free, free);
        PtAt(Now(), a, free);
        CopyoutUnfold(s, root, va, rest);
        var t, i := Lookup(root, va0);
        if t.None? { return false; }
        if mem[t.value].t[i].flags.cow {
          var handled := PgfaultHandler(root, va0);
        }
        CopyoutPage(s, Abs(), a);
        var pa0 := WalkAddr(root, va0);
        if pa0.None? { return false; }
        var n := PGSIZE - (va - va0);
        if n > |rest| { n := |rest|; }
        CopyoutWrites(s, Abs(), a, va % PGSIZE, rest[..n]);
        WriteUser(pa0.value, va % PGSIZE, rest[..n], a);
        va, rest := va0 + PGSIZE, rest[n..];
      }
      return true;
    }

    /** `n` bytes within one user page. */
    method ReadUser(root: nat, va: nat, n: nat) returns (r: Option<seq<Byte>>)
      requires Valid() && Root(root) in tables && Backed(Abs()) && va % PGSIZE + n <= PGSIZE
      ensures var a := Va(root, va / PGSIZE);
        r == if UserPage(Abs(), a) then Some(Abs().frames[Abs().pt[a].frame].page[va % PGSIZE..va % PGSIZE + n]) else None
    {
      hide ListOk, Structure, AbsOf;
      Aligned(va / PGSIZE);
      var pa0 := WalkAddr(root, va / PGSIZE * PGSIZE);
      if pa0.None? { return None; }
      PtAt(Now(), Va(root, va / PGSIZE), free);
      DataAt(Now(), pa0.value);
      r := Some(mem[pa0.value].page[va % PGSIZE..va % PGSIZE + n]);
    }

    /** Copy `len` user bytes from `srcva` on, page by page. */
    method Copyin(root: nat, srcva: nat, len: nat) returns (r: Option<seq<Byte>>)
      requires Valid() && Root(root) in tables && Inv(Abs())
      ensures Backed(Abs()) && r == CopyinAll(Abs(), root, srcva, len)
      ensures r.Some? <==> UserRange(ViewOf(Abs()), root, srcva, len)
      ensures r.Some? ==> Read(ViewOf(Abs()), root, srcva, len, r.value)
    {
      hide ListOk, Structure, AbsOf, Inv, Backed, CopyinAll, UserPage, UserRange, Read, ViewOf;
      ghost var s := Abs();
      InvBacked(s);
      CopyinAllMeans(s, root, srcva, len);
      var va: nat, left: nat, dst: seq<Byte> := srcva, len, [];
      NothingBefore(CopyinAll(s, root, srcva, len));
      while left > 0
        invariant CopyinAll(s, root, srcva, len) == Before(dst, CopyinAll(s, root, va, left))
        decreases left
      {
        CopyinUnfold(s, root, va, left);
        var va0 := va / PGSIZE * PGSIZE;
        var n := PGSIZE - (va - va0);
        if n > left { n := left; }
        var part := ReadUser(root, va, n);
        if part.None? { return None; }
        BeforeTwice(dst, part.value, CopyinAll(s, root, NextPage(va), left - n));
        dst := dst + part.value;
        va, left := va0 + PGSIZE, left - n;
      }
      CopyinUnfold(s, root, va, 0);
      assert dst + [] == dst;
      return Some(dst);
    }

    // ---- growing and shrinking ----

    /** Shrink a space to `newsz` bytes, or leave it when that is no less. */
    method UvmDealloc(root: nat, oldsz: nat, newsz: nat) returns (r: nat)
      requires Valid() && Root(root) in tables && Inv(Abs()) && RoundUp(oldsz) <= MAXPAGES
      requires forall p: nat :: RoundUp(newsz) <= p < RoundUp(oldsz) ==> Va(root, p) in Abs().pt
      modifies this
      ensures Valid() && tables == old(tables) && Inv(Abs())
      ensures r == if newsz < oldsz then newsz else oldsz
      ensures ViewOf(Abs()) == ViewOf(old(Abs())) - PagesOf(root, RoundUp(newsz), Surplus(oldsz, newsz))
      ensures Exact(old(Abs())) ==> Exact(Abs())
    {
      hide ListOk, Structure, AbsOf, Inv, Owing, ViewOf, UnmapPages, PagesOf, RoundUp;
      ghost var s, n := Abs(), Surplus(oldsz, newsz);
      UnmapNone(s, root, RoundUp(newsz));
      UnmapPagesOk(s, root, RoundUp(newsz), n, map[]);
      RoundUpOrder(oldsz, newsz);
      r := oldsz;
      if newsz < oldsz {
        if RoundUp(newsz) < RoundUp(oldsz) {
          Aligned(RoundUp(newsz));
          UvmUnmap(root, RoundUp(newsz) * PGSIZE, RoundUp(oldsz) - RoundUp(newsz), true);
        }
        r := newsz;
      }
      assert Abs() == UnmapPages(s, root, RoundUp(newsz), n);
    }

    /** `kfree` of a page that nothing maps. */
    method DropData(f: nat)
      requires Valid() && f in data && f < |refs| && refs[f] == 1 && Mappers(Abs().pt, f) == {}
      modifies this
      ensures Valid() && tables == old(tables)
      ensures Abs() == old(Abs()).(frames := old(Abs()).frames - {f}, free := free)
      ensures Distinct(free) && forall g :: g in free ==> g !in Abs().frames
    {
      hide ListOk, Structure, AbsOf, Mappers;
      ghost var p, next, free0 := Now(), freelist, free;
      DataAt(p, f);
      FreedOk(p, f, next, free0);
      Kfree(f);
      data := data - {f};
      assert Now() == Freed(p, f, next);
      FreeSwap(Now(), free0, free);
      FreeListFits(Now(), freelist, free);
    }

    /** The body of the loop of `uvmalloc`: a zeroed page is mapped, or its frame given back. */
    method GrowOne(root: nat, page: nat) returns (ok: bool)
      requires Valid() && Root(root) in tables && Inv(Abs()) && page < MAXPAGES && Va(root, page) !in Abs().pt
      modifies this
      ensures Valid() && Inv(Abs()) && Grown(old(tables), tables)
      ensures ViewOf(Abs()) == if ok then Zeroes(ViewOf(old(Abs())), root, page, 1) else ViewOf(old(Abs()))
      ensures Exact(old(Abs())) ==> Exact(Abs())
      ensures ok <==> |old(free)| > |PathTo(root, 0, page) - old(tables).Keys|
      ensures ok ==> |free| == |old(free)| - 1 - |PathTo(root, 0, page) - old(tables).Keys|
      ensures ok ==> tables.Keys == old(tables).Keys + PathTo(root, 0, page)
    {
      hide ListOk, Structure, AbsOf, Inv, Owing, ViewOf, Grown, Shorter, LeafNode, Mappers, PathTo;
      ghost var s, a := Abs(), Va(root, page);
      SameTables(tables, free);
      var f := AllocData(ZeroPage());
      if f.None? { return false; }
      ok := MapOne(root, page, f.value, FULL);
      FreeListFits(Now(), freelist, free);
      if ok {
        Grew(s, a, free);
      } else {
        NotGrown(s, a);
        DataIff(Now(), f.value, free);
        DataAt(Now(), f.value);
        DropData(f.value);
        FreeListOk(s, free);
      }
    }

    /**
     Grow a space to `newsz` bytes with zeroed pages. Out of memory, the pages already added are
     removed again: page-table pages stay, but nothing a process could see has changed.
     */
    method UvmAlloc(root: nat, oldsz: nat, newsz: nat) returns (r: Option<nat>)
      requires Valid() && Root(root) in tables && Inv(Abs()) && RoundUp(newsz) <= MAXPAGES
      requires forall p: nat :: RoundUp(oldsz) <= p < RoundUp(newsz) ==> Va(root, p) !in Abs().pt
      modifies this
      ensures Valid() && Inv(Abs()) && Grown(old(tables), tables)
      ensures newsz < oldsz ==> r == Some(oldsz)
      ensures newsz >= oldsz && r.Some? ==> r.value == newsz
      ensures ViewOf(Abs()) == if r.Some? then Zeroes(ViewOf(old(Abs())), root, RoundUp(oldsz), Surplus(newsz, oldsz)) else ViewOf(old(Abs()))
      ensures Exact(old(Abs())) ==> Exact(Abs())
      ensures r.Some? <==> |old(free)| >= FramesNeeded(old(tables).Keys, root, RoundUp(oldsz), Surplus(newsz, oldsz), 1)
    {
      hide ListOk, Structure, AbsOf, Inv, Exact, Backed, ViewOf, Grown, Shorter, Zeroes, RoundUp, PathTo, FramesNeeded;
      InvBacked(Abs());
      ghost var views, t0 := ViewOf(Abs()), tables;
      SameTables(tables, free);
      RoundUpOrder(newsz, oldsz);
      ZeroesNone(views, root, RoundUp(oldsz));
      forall p: nat | RoundUp(oldsz) <= p < RoundUp(newsz) ensures Va(root, p) !in views {
        ZeroesKeys(Abs(), views, root, RoundUp(oldsz), 0, p);
      }
      NeedNone(tables.Keys, root, RoundUp(oldsz), 1);
      if newsz < oldsz { return Some(oldsz); }
      var first := RoundUp(oldsz);
      var a := first;
      ghost var short := FramesNeeded(tables.Keys, root, first, RoundUp(newsz) - first, 1) - |free|;
      while a < RoundUp(newsz)
        invariant first <= a <= RoundUp(newsz)
        invariant FramesNeeded(tables.Keys, root, a, RoundUp(newsz) - a, 1) - |free| == short
        invariant Valid() && Inv(Abs()) && Backed(Abs()) && Grown(t0, tables) && Root(root) in tables
        invariant ViewOf(Abs()) == Zeroes(views, root, first, a - first)
        invariant Exact(old(Abs())) ==> Exact(Abs())
      {
        ghost var t1 := tables;
        ZeroesKeys(Abs(), views, root, first, a - first, a);
        NeedMore(tables.Keys, root, a, RoundUp(newsz) - a, 1);
        var ok := GrowOne(root, a);
        GrownMore(t0, t1, tables, Root(root));
        InvBacked(Abs());
        if !ok {
          Undo(root, a, first, views);
          return None;
        }
        ZeroesMore(views, root, first, a - first);
        a := a + 1;
      }
      NeedNone(tables.Keys, root, a, 1);
      r := Some(newsz);
    }

    /** The call of `uvmdealloc` with which a failed `uvmalloc` ends, from page `a` back to page `first`. */
    method Undo(root: nat, a: nat, first: nat, ghost views: Views)
      requires Valid() && Root(root) in tables && Inv(Abs()) && first <= a <= MAXPAGES
      requires (forall p: nat :: first <= p < a ==> Va(root, p) !in views) && ViewOf(Abs()) == Zeroes(views, root, first, a - first)
      modifies this
      ensures Valid() && tables == old(tables) && Inv(Abs()) && ViewOf(Abs()) == views
      ensures Exact(old(Abs())) ==> Exact(Abs())
    {
      hide ListOk, Structure, AbsOf, Inv, Owing, ViewOf;
      WholePages(a);
      WholePages(first);
      forall p: nat | first <= p < a ensures Va(root, p) in Abs().pt { ZeroesKeys(Abs(), views, root, first, a - first, p); }
      ZeroesGone(views, root, first, a - first);
      var r := UvmDealloc(root, a * PGSIZE, first * PGSIZE);
    }

    // ---- freeing page tables ----

    /** The kernel's whole state but for one table that is gone while an entry still points at it. */
    ghost predicate ValidBut(dangling: set<Node>)
      reads this
    {
      ListOk(mem, freelist, free) && StructureBut(Now(), dangling)
    }

    /** One slot of the loop of `freewalk`: what it points at is freed and the entry cleared. */
    method FreeSlot(t: nat, i: nat, ghost n: Node)
      requires ValidBut({}) && n in tables && tables[n] == t && i < ENTRIES && Leafless(PtOf(mem, tables), n)
      modifies this
      ensures ValidBut({}) && n in tables && tables[n] == t && tables == Skipped(old(tables), n, i)
      ensures Pruning(old(Now()), old(free), Now(), free, {n})
      ensures t < |mem| == |old(mem)| && mem[t].Table? && !mem[t].t[i].v && old(mem)[t].Table?
      ensures forall j :: 0 <= j < ENTRIES && j != i ==> mem[t].t[j] == old(mem)[t].t[j]
      ensures PtOf(mem, tables) == old(PtOf(mem, tables)) && FrameMap(Now()) == old(FrameMap(Now()))
      decreases n.level, 0
    {
      hide ListOk, StructureBut, PtOf, FrameMap, Leafless, Without, Elements, Pruning;
      ghost var p, free0 := Now(), free;
      PointsDown(p, n, i);
      Parts(p, {});
      PruningNone(p, free0, {n});
      var pte := mem[t].t[i];
      if pte.v && !pte.flags.r && !pte.flags.w && !pte.flags.x {
        LeaflessChild(PtOf(mem, tables), n, i);
        ParentStays(tables, n, i);
        FreeWalk(pte.frame, n.Child(i));
        ghost var q, free1 := Now(), free;
        Parts(q, {n.Child(i)});
        TableSame(p, free0, q, free1, n);
        PruningLess(p, free0, q, free1, {}, {n});
        ClearLink(q, n, i);
        ClearedPruning(q, free1, n, i);
        ListKept(mem, freelist, free, t, Table(mem[t].t[i := EMPTY]));
        mem := mem[t := Table(mem[t].t[i := EMPTY])];
        PruningTwice(p, free0, q, free1, Now(), free, {n});
      } else {
        SkipsNothing(p, n, i);
      }
    }

    /** The end of `freewalk`: the table at `n`, which points at nothing by now, is freed. */
    method DropTable(t: nat, ghost n: Node)
      requires ValidBut({}) && n in tables && tables[n] == t
      requires Cleared(mem, t, ENTRIES)
      modifies this
      ensures ValidBut({n}) && tables == old(tables) - {n}
      ensures Pruning(old(Now()), old(free), Now(), free, {})
      ensures PtOf(mem, tables) == old(PtOf(mem, tables)) && FrameMap(Now()) == old(FrameMap(Now()))
    {
      hide ListOk, StructureBut, PtOf, FrameMap, Elements, Pruning;
      ghost var q, next := Now(), freelist;
      Parts(q, {});
      DroppedOk(q, n, next);
      DroppedPruning(q, free, n, next);
      Kfree(t);
      tables := tables - {n};
      assert Now() == Dropped(q, n, next);
    }

    /** `freewalk`: free the tables at and below `n`, none of which maps a page. */
    method FreeWalk(t: nat, ghost n: Node)
      requires ValidBut({}) && n in tables && tables[n] == t && Leafless(PtOf(mem, tables), n)
      modifies this
      ensures ValidBut({n}) && tables == Without(old(tables), n)
      ensures Pruning(old(Now()), old(free), Now(), free, {})
      ensures PtOf(mem, tables) == old(PtOf(mem, tables)) && FrameMap(Now()) == old(FrameMap(Now()))
      decreases n.level, 1
    {
      hide ListOk, StructureBut, PtOf, FrameMap, Leafless, Without, Elements, Pruning, Pruned, Skipped, TablesOk, FramesOk;
      ghost var p, free0 := Now(), free;
      PrunedEnds(tables, n);
      PruningNone(p, free0, {n});
      Parts(p, {});
      var i := 0;
      while i < ENTRIES
        invariant 0 <= i <= ENTRIES && ValidBut({}) && n in tables && tables[n] == t
        invariant Pruning(p, free0, Now(), free, {n}) && tables == Pruned(p.tables, n, i)
        invariant TablesOk(mem, tables) && FramesOk(Now())
        invariant PtOf(mem, tables) == PtOf(p.mem, p.tables) && FrameMap(Now()) == FrameMap(p)
        invariant Cleared(mem, t, i)
      {
        ghost var q, free1 := Now(), free;
        SkippedPruned(p.tables, n, i);
        FreeSlot(t, i, n);
        Parts(Now(), {});
        PruningTwice(p, free0, q, free1, Now(), free, {n});
        i := i + 1;
      }
      ghost var q, free1 := Now(), free;
      DropTable(t, n);
      PruningLess(q, free1, Now(), free, {}, {n});
      PruningTwice(p, free0, q, free1, Now(), free, {n});
      ExceptGone(p, free0, Now(), free, n);
    }

    /** `freewalk` of a whole space. */
    method FreeTree(root: nat)
      requires Valid() && Root(root) in tables && Leafless(Abs().pt, Root(root))
      modifies this
      ensures Valid() && tables == Without(old(tables), Root(root))
      ensures Abs() == old(Abs()).(free := free) && Distinct(free) && (forall f :: f in free ==> f !in Abs().frames)
      ensures Elements(free) == Elements(old(free)) + FramesGone(old(tables), tables)
    {
      hide ListOk, Structure, AbsOf, Elements, FramesGone, Without, Leafless, StructureBut, Pruning;
      ghost var p, free0 := Now(), free;
      StructureIs(p, free0);
      TableAt(p, Root(root));
      FreeWalk(root, Root(root));
      TreeGone(Now(), root);
      GoneByPruning(p, free0, Now(), free);
      SameMeaning(p, Now(), free0, free);
      FreeListFits(Now(), freelist, free);
    }

    /** `uvmfree`: the pages below `sz` lose their frames, then every table of the space is freed. */
    method UvmFree(root: nat, sz: nat)
      requires Valid() && Root(root) in tables && Inv(Abs()) && RoundUp(sz) <= MAXPAGES
      requires forall p: nat :: 0 <= p < RoundUp(sz) ==> Va(root, p) in Abs().pt
      requires forall a :: a in Abs().pt && a.space == root ==> a.page < RoundUp(sz)
      modifies this
      ensures Valid() && tables == Without(old(tables), Root(root))
      ensures Abs() == UnmapPages(old(Abs()), root, 0, RoundUp(sz)).(free := free)
      ensures Elements(free) == Elements(UnmapPages(old(Abs()), root, 0, RoundUp(sz)).free) + FramesGone(old(tables), tables)
      ensures Inv(Abs()) && ViewOf(Abs()) == ViewOf(old(Abs())) - PagesOf(root, 0, RoundUp(sz))
      ensures Exact(old(Abs())) ==> Exact(Abs())
    {
      hide ListOk, Structure, AbsOf, Inv, UnmapPages, Elements, FramesGone, Without, Owing, ViewOf, Leafless, PagesOf;
      ghost var s, n := Abs(), RoundUp(sz);
      UnmapNone(s, root, 0);
      if sz > 0 {
        UvmUnmap(root, 0, RoundUp(sz), true);
      }
      assert Abs() == UnmapPages(s, root, 0, n);
      UnmappedAll(s, root, n);
      UnmapPagesOk(s, root, 0, n, map[]);
      FreeSwap(Now(), free, free);
      FreeTree(root);
      FreeListOk(UnmapPages(s, root, 0, n), free);
    }

    /** `uvmcreate`: a zeroed page as the top table of a new address space. */
    method UvmCreate() returns (r: Option<nat>)
      requires Valid() && Inv(Abs())
      modifies this
      ensures Valid() && Inv(Abs())
      ensures r.None? <==> old(free) == []
      ensures r.None? ==> unchanged(this)
      ensures r.Some? ==> Root(r.value) !in old(tables) && tables == old(tables)[Root(r.value) := r.value]
      ensures r.Some? ==> old(free) == [r.value] + free && Abs() == old(Abs()).(free := free)
      ensures r.Some? ==> forall a :: a in Abs().pt ==> a.space != r.value
      ensures ViewOf(Abs()) == ViewOf(old(Abs()))
      ensures Exact(old(Abs())) ==> Exact(Abs())
    {
      hide ListOk, Structure, AbsOf, Inv, Owing, ViewOf, Junk;
      ghost var p, s, free0 := Now(), Abs(), free;
      FreeSwap(p, free0, free0);
      Sizes(p);
      r := this.Kalloc();
      if r.Some? {
        var f := r.value;
        FreeApart(p, old(freelist), free0, 0);
        NewRootOk(p, f, free0);
        ListKept(mem, freelist, free, f, Table(Zeroed()));
        mem := mem[f := Table(Zeroed())];
        tables := tables[Root(f) := f];
        assert Now() == NewRoot(p, f);
        FreeSwap(Now(), free0, free);
        FreeListFits(Now(), freelist, free);
        FreeListOk(s, free);
      }
    }
  }

  /** The first `n` entries of the table at `t` point at nothing. */
  ghost predicate Cleared(mem: seq<Content>, t: nat, n: nat) {
    forall j :: 0 <= j < n <= ENTRIES && t < |mem| && mem[t].Table? ==> !mem[t].t[j].v
  }

  /** Pages needed for `sz` bytes. */
  function RoundUp(sz: nat): nat {
    (sz + PGSIZE - 1) / PGSIZE
  }

  /** The frames that `n` pages from `page` on take: `each` of them that many, and one for every table that is not in `keys`. */
  ghost function FramesNeeded(keys: set<Node>, root: nat, page: nat, n: nat, each: nat): nat
    decreases n
  {
    if n == 0 then 0
    else each + |PathTo(root, 0, page) - keys| + FramesNeeded(keys + PathTo(root, 0, page), root, page + 1, n - 1, each)
  }

  lemma NeedNone(keys: set<Node>, root: nat, page: nat, each: nat)
    ensures FramesNeeded(keys, root, page, 0, each) == 0
  {
  }

  lemma NeedMore(keys: set<Node>, root: nat, page: nat, n: nat, each: nat)
    requires n > 0
    ensures FramesNeeded(keys, root, page, n, each) ==
      each + |PathTo(root, 0, page) - keys| + FramesNeeded(keys + PathTo(root, 0, page), root, page + 1, n - 1, each)
  {
  }

  /** One page more is mapped, or there are too few frames for all that are left. */
  lemma NeedTook(t0: Tables, f0: seq<nat>, t1: Tables, f1: seq<nat>, root: nat, page: nat, n: nat, ok: bool)
    requires n > 0 && Took(t0, f0, t1, f1, PathTo(root, 0, page), ok)
    ensures var need := FramesNeeded(t0.Keys, root, page, n, 0);
      if ok then FramesNeeded(t1.Keys, root, page + 1, n - 1, 0) - |f1| == need - |f0| else need > |f0|
  {
    NeedMore(t0.Keys, root, page, n, 0);
    hide FramesNeeded, PathTo;
  }

  /** How many pages `oldsz` bytes need beyond those of `newsz` bytes. */
  function Surplus(oldsz: nat, newsz: nat): nat {
    if RoundUp(newsz) < RoundUp(oldsz) then RoundUp(oldsz) - RoundUp(newsz) else 0
  }

  lemma RoundUpOrder(x: nat, y: nat)
    ensures x <= y ==> RoundUp(x) <= RoundUp(y)
    ensures y <= x ==> RoundUp(y) <= RoundUp(x)
  {
  }

  /** A page is needed exactly when its first byte is within the size. */
  lemma PageNeeded(sz: nat, i: nat)
    ensures i < RoundUp(sz) <==> i * 4096 < sz
  {
  }

  lemma WholePages(n: nat)
    ensures RoundUp(n * PGSIZE) == n
  {
  }

  /** `n` zeroed pages with all permissions added from page `first` on. */
  ghost function Zeroes(views: Views, root: nat, first: nat, n: nat): Views {
    if n == 0 then views
    else Zeroes(views, root, first, n - 1)[Va(root, first + n - 1) := PageView(ZeroPage(), true, true, true, true)]
  }

  lemma ZeroesNone(views: Views, root: nat, first: nat)
    ensures Zeroes(views, root, first, 0) == views
  {
  }

  lemma ZeroesMore(views: Views, root: nat, first: nat, n: nat)
    ensures Zeroes(views, root, first, n + 1) == Zeroes(Zeroes(views, root, first, n), root, first + n, 1)
  {
    assert Zeroes(Zeroes(views, root, first, n), root, first + n, 0) == Zeroes(views, root, first, n);
  }

  /** Which pages there are once some have been added. */
  lemma {:induction false} ZeroesIn(views: Views, root: nat, first: nat, n: nat, p: nat)
    ensures Va(root, p) in Zeroes(views, root, first, n) <==> Va(root, p) in views || first <= p < first + n
  {
    if n > 0 { ZeroesIn(views, root, first, n - 1, p); }
  }

  lemma ZeroesKeys(s: State, views: Views, root: nat, first: nat, n: nat, p: nat)
    requires Inv(s) && ViewOf(s) == Zeroes(views, root, first, n)
    ensures Va(root, p) in s.pt <==> Va(root, p) in views || first <= p < first + n
  {
    assert Va(root, p) in s.pt <==> Va(root, p) in ViewOf(s);
    ZeroesIn(views, root, first, n, p);
  }

  lemma {:induction false} ZeroesGone(views: Views, root: nat, first: nat, n: nat)
    requires forall p: nat :: first <= p < first + n ==> Va(root, p) !in views
    ensures Zeroes(views, root, first, n) - PagesOf(root, first, n) == views
  {
    if n > 0 {
      ZeroesGone(views, root, first, n - 1);
      ZeroesIn(views, root, first, n - 1, first + n - 1);
    }
  }

  lemma GrownMore(t0: Tables, t1: Tables, t2: Tables, n: Node)
    requires Grown(t0, t1) && Grown(t1, t2) && n in t1
    ensures Grown(t0, t2) && n in t2
  {
  }

  lemma Grew(s: State, a: Va, free: seq<nat>)
    requires Inv(s) && a !in s.pt && s.free != []
    requires Distinct(free) && forall f :: f in free ==> f !in Grow(s, a).frames
    ensures Inv(Grow(s, a).(free := free)) && (Exact(s) ==> Exact(Grow(s, a).(free := free)))
    ensures ViewOf(Grow(s, a).(free := free)) == Zeroes(ViewOf(s), a.space, a.page, 1)
  {
    GrowOk(s, a);
    FreeListOk(Grow(s, a), free);
    assert Zeroes(ViewOf(s), a.space, a.page, 0) == ViewOf(s);
    hide Inv, Owing, ViewOf;
  }

  lemma NotGrown(s: State, a: Va)
    requires Inv(s) && s.free != []
    ensures s.free[0] !in s.frames && Mappers(s.pt, s.free[0]) == {}
    ensures Cow.Kalloc(s, ZeroPage()).frames - {s.free[0]} == s.frames
  {
    KallocOk(s, ZeroPage());
    assert s.free[0] in s.free;
  }

  lemma UnmapNone(s: State, c: nat, from: nat)
    ensures UnmapPages(s, c, from, 0) == s
  {
  }

  /** With its pages unmapped, a space has no leaves. */
  lemma UnmappedAll(s: State, root: nat, n: nat)
    requires Inv(s) && forall a :: a in s.pt && a.space == root ==> a.page < n
    ensures Leafless(UnmapPages(s, root, 0, n).pt, Root(root))
  {
    forall a | a in UnmapPages(s, root, 0, n).pt ensures !InSubtree(LeafNode(a), Root(root)) {
      UnmappedPt(s, root, 0, n, a);
      LeafSpace(a);
    }
  }

  lemma StructureIs(p: Phys, free: seq<nat>)
    requires Structure(p)
    ensures StructureBut(p, {}) && AbsOf(p, free).pt == PtOf(p.mem, p.tables)
  {
    hide PtOf, FrameMap, Linked, Rooted, LeavesOk;
  }

  /** Nothing points at a top-level table, so one that is gone leaves nothing dangling. */
  lemma TreeGone(p: Phys, root: nat)
    requires StructureBut(p, {Root(root)})
    ensures Structure(p)
  {
    hide Rooted, LeavesOk, FramesOk;
  }

  lemma LeafSpace(a: Va)
    ensures forall r :: InSubtree(LeafNode(a), Root(r)) ==> a.space == r
  {
    var n := LeafNode(a);
    assert Above(n.Parent(), 2) == Above(n.Parent().Parent(), 2) == n.Parent().Parent();
  }

  lemma {:induction false} UnmappedPt(s: State, c: nat, from: nat, n: nat, a: Va)
    requires Inv(s) && a in UnmapPages(s, c, from, n).pt
    ensures a in s.pt && !(a.space == c && from <= a.page < from + n)
  {
    if n > 0 {
      UnmapPagesOk(s, c, from, n - 1, map[]);
      UnmappedPt(s, c, from, n - 1, a);
    }
  }

  /** The frames of the list are not in use. */
  lemma FreeListFits(p: Phys, freelist: Option<nat>, free: seq<nat>)
    requires Structure(p) && ListOk(p.mem, freelist, free)
    ensures Distinct(free) && forall f :: f in free ==> f !in AbsOf(p, free).frames
  {
    hide PtOf, Linked, Rooted, LeavesOk;
  }

  lemma GoneByPruning(p: Phys, free: seq<nat>, q: Phys, free': seq<nat>)
    requires Pruning(p, free, q, free', {})
    ensures Elements(free') == Elements(free) + FramesGone(p.tables, q.tables)
  {
  }

  lemma SameMeaning(p: Phys, q: Phys, free: seq<nat>, free': seq<nat>)
    requires Structure(p) && Structure(q) && PtOf(p.mem, p.tables) == PtOf(q.mem, q.tables) && FrameMap(p) == FrameMap(q)
    ensures AbsOf(q, free') == AbsOf(p, free).(free := free')
  {
  }

  lemma Parts(p: Phys, dangling: set<Node>)
    requires StructureBut(p, dangling)
    ensures TablesOk(p.mem, p.tables) && FramesOk(p) && |p.mem| == |p.refs|
  {
  }

  /** A table that is left is as it was. */
  lemma TableSame(p: Phys, free: seq<nat>, q: Phys, free': seq<nat>, n: Node)
    requires Pruning(p, free, q, free', {}) && n in q.tables && q.tables[n] < |q.mem|
    ensures n in p.tables && |q.mem| == |p.mem| && q.mem[q.tables[n]] == p.mem[q.tables[n]]
  {
    hide Elements, FramesGone;
  }

  /** `r` with `dst` in front, if there is one. */
  function Before(dst: seq<Byte>, r: Option<seq<Byte>>): Option<seq<Byte>> {
    if r.None? then None else Some(dst + r.value)
  }

  lemma NothingBefore(r: Option<seq<Byte>>)
    ensures Before([], r) == r
  {
    if r.Some? { assert [] + r.value == r.value; }
  }

  lemma BeforeTwice(dst: seq<Byte>, part: seq<Byte>, r: Option<seq<Byte>>)
    ensures Before(dst, Before(part, r)) == Before(dst + part, r)
  {
    if r.Some? { assert dst + (part + r.value) == dst + part + r.value; }
  }

  lemma CopyinUnfold(s: State, root: nat, va: nat, len: nat)
    requires Backed(s)
    ensures len == 0 ==> CopyinAll(s, root, va, len) == Some([])
    ensures len > 0 ==>
      var a, n := Va(root, va / PGSIZE), Chunk(va, len);
      CopyinAll(s, root, va, len) ==
        if !UserPage(s, a) then None
        else Before(s.frames[s.pt[a].frame].page[va % PGSIZE..va % PGSIZE + n], CopyinAll(s, root, NextPage(va), len - n))
  {
  }

  lemma CopyoutUnfold(s: State, root: nat, va: nat, src: seq<Byte>)
    requires Inv(s) && src != []
    ensures var a, n := Va(root, va / PGSIZE), Chunk(va, |src|);
      && (!UserPage(s, a) ==> CopyoutAll(s, root, va, src) == (s, false))
      && (UserPage(s, a) ==>
            && Inv(CowRuns.Copyout(s, a, va % PGSIZE, src[..n]))
            && CopyoutAll(s, root, va, src) == CopyoutAll(CowRuns.Copyout(s, a, va % PGSIZE, src[..n]), root, NextPage(va), src[n..]))
  {
    CopyoutPages(s, Va(root, va / PGSIZE), va % PGSIZE, src[..Chunk(va, |src|)]);
  }

  /** The state after the handler had its chance. */
  ghost predicate Handled(s: State, t: State, a: Va)
    requires Inv(s)
  {
    if CanFault(s, a) && s.free != [] then t == Fault(s, a) else t == s
  }

  /** The handler does not make a page a user page, nor the reverse. */
  lemma CopyoutPage(s: State, t: State, a: Va)
    requires Inv(s) && Handled(s, t, a)
    ensures UserPage(t, a) <==> UserPage(s, a)
    ensures !UserPage(s, a) ==> t == s
  {
    if CanFault(s, a) && s.free != [] { FaultOk(s, a); }
  }

  lemma CopyoutWrites(s: State, t: State, a: Va, off: nat, data: seq<Byte>)
    requires Inv(s) && Handled(s, t, a) && UserPage(s, a) && off + |data| <= PGSIZE
    ensures a in t.pt && t.pt[a].frame in t.frames
    ensures WriteAt(t, a, off, data) == CowRuns.Copyout(s, a, off, data)
  {
    if CanFault(s, a) && s.free != [] { FaultOk(s, a); }
  }

  lemma ForkStart(s: State, p: nat, c: nat, free: seq<nat>)
    ensures ForkPages(false, s, p, c, 0) == s
  {
  }

  /** Page `i` is ready to be shared after pages below it have been. */
  lemma ForkReady(s: State, p: nat, c: nat, i: nat, n: nat)
    requires Inv(s) && CanFork(false, s, p, c, n) && i < n
    ensures var t := ForkPages(false, s, p, c, i);
      && p != c && Va(p, i) in t.pt && Va(c, i) !in t.pt && t.pt[Va(p, i)] == s.pt[Va(p, i)]
      && (t.pt[Va(p, i)].flags.r || t.pt[Va(p, i)].flags.x)
  {
    ForkOk(false, s, p, c, i);
    ForkKeeps(s, p, c, i, Va(p, i));
  }

  /** Pages not yet reached by the loop keep their entries. */
  lemma {:induction false} ForkKeeps(s: State, p: nat, c: nat, i: nat, a: Va)
    requires a.space == p != c && a.page >= i
    ensures a in ForkPages(false, s, p, c, i).pt <==> a in s.pt
    ensures a in s.pt ==> ForkPages(false, s, p, c, i).pt[a] == s.pt[a]
  {
    if i > 0 { ForkKeeps(s, p, c, i - 1, a); }
  }

  lemma ForkUnfold(s: State, p: nat, c: nat, i: nat)
    ensures ForkPages(false, s, p, c, i + 1) == ForkPage(false, ForkPages(false, s, p, c, i), Va(p, i), Va(c, i))
  {
  }

  /** Sharing does not look at the free list. */
  lemma ShareFree(s: State, p: Va, c: Va, free: seq<nat>, free': seq<nat>)
    requires p in s.pt && s.pt[p].frame in s.frames
    ensures SharePage(s.(free := free), p, c).(free := free') == ForkPage(false, s, p, c).(free := free')
  {
  }

  lemma ForkMore(s: State, p: nat, c: nat, i: nat, n: nat, free: seq<nat>, free': seq<nat>)
    requires Inv(s) && CanFork(false, s, p, c, n) && i < n
    ensures var t := ForkPages(false, s, p, c, i).(free := free);
      && Va(p, i) in t.pt && t.pt[Va(p, i)].frame in t.frames
      && SharePage(t, Va(p, i), Va(c, i)).(free := free') == ForkPages(false, s, p, c, i + 1).(free := free')
  {
    ForkOk(false, s, p, c, i);
    ForkKeeps(s, p, c, i, Va(p, i));
    var t := ForkPages(false, s, p, c, i);
    assert t.pt[Va(p, i)].frame in t.frames;
    hide *;
    ForkUnfold(s, p, c, i);
    ShareFree(t, Va(p, i), Va(c, i), free, free');
  }

  lemma {:induction false} ForkFree(s: State, p: nat, c: nat, i: nat, free: seq<nat>)
    ensures ForkPages(false, s.(free := free), p, c, i) == ForkPages(false, s, p, c, i).(free := free)
  {
    if i > 0 { ForkFree(s, p, c, i - 1, free); }
  }

  /** What the loop has reached when it gives up, and what unmapping then leaves. */
  lemma ForkGivesUp(s: State, p: nat, c: nat, i: nat, n: nat, free0: seq<nat>, u: State)
    requires Inv(s) && CanFork(false, s, p, c, n) && i < n
    requires GaveUpAt(s, p, c, i, free0, u)
    ensures Inv(u) && (forall v: nat :: v < i ==> Va(c, v) in u.pt)
    ensures Unmapped(u, c, 0, i, true) == FailedFork(s.(free := []), p, c, i)
    ensures Inv(FailedFork(s.(free := []), p, c, i)) && ViewOf(FailedFork(s.(free := []), p, c, i)) == ViewOf(s)
  {
    hide Inv, ForkPages, FailedFork, Unmapped, ViewOf, CanFork;
    ForkFails(s, p, c, i, n);
    assert u == Share(ForkPages(false, s, p, c, i).(free := []), ForkPages(false, s, p, c, i).pt[Va(p, i)].frame);
  }

  /** `u` is the state in which the loop gives up at page `i`. */
  ghost predicate GaveUpAt(s: State, p: nat, c: nat, i: nat, free0: seq<nat>, u: State) {
    var t := ForkPages(false, s, p, c, i).(free := free0);
    Va(p, i) in t.pt && t.pt[Va(p, i)].frame in t.frames && u == Share(t, t.pt[Va(p, i)].frame).(free := [])
  }

  /** The state in which the loop gives up, and what unmapping then leaves. */
  lemma ForkFails(s: State, p: nat, c: nat, i: nat, n: nat)
    requires Inv(s) && CanFork(false, s, p, c, n) && i < n
    ensures var t := ForkPages(false, s, p, c, i).(free := []);
      && Va(p, i) in t.pt && t.pt[Va(p, i)].frame in t.frames
      && var u := Share(t, t.pt[Va(p, i)].frame);
      && Inv(u) && (forall v: nat :: v < i ==> Va(c, v) in u.pt)
      && Unmapped(u, c, 0, i, true) == FailedFork(s.(free := []), p, c, i)
      && Inv(FailedFork(s.(free := []), p, c, i)) && ViewOf(FailedFork(s.(free := []), p, c, i)) == ViewOf(s)
  {
    var s0 := s.(free := []);
    FreeListOk(s, []);
    ForkFree(s, p, c, i, []);
    ForkOk(false, s0, p, c, i);
    var t := ForkPages(false, s0, p, c, i);
    ShareOk(t, t.pt[Va(p, i)].frame);
    FailedForkOk(s0, p, c, i);
  }

  lemma ForkEnds(s: State, p: nat, c: nat, n: nat, free: seq<nat>)
    requires Inv(s) && CanFork(false, s, p, c, n) && Shorter(s.free, free)
    ensures var t := ForkPages(false, s, p, c, n).(free := free);
      Inv(t) && ViewOf(t) == SpecFork(ViewOf(s), p, c, n)
  {
    ForkFree(s, p, c, n, free);
    FreeListOk(s, free);
    ForkOk(false, s.(free := free), p, c, n);
  }

  /** The handler's steps, put together, are `Fault`. */
  lemma FaultSteps(s: State, a: Va, page: Page)
    requires Inv(s) && a in s.pt && s.pt[a].flags.cow && s.free != []
    requires page == s.frames[s.pt[a].frame].page
    ensures Inv(Kalloc(s, page)) && a in Kalloc(s, page).pt
    ensures var t := Unmapped(Kalloc(s, page), a.space, a.page, 1, true);
      && Fault(s, a) == t.(pt := t.pt[a := Leaf(s.free[0], s.pt[a].flags.(w := true))])
      && s.free[0] in t.frames && a !in t.pt
    ensures Inv(Fault(s, a))
  {
    KallocOk(s, page);
    FaultOk(s, a);
    var k, t := Kalloc(s, page), Unmapped(Kalloc(s, page), a.space, a.page, 1, true);
    UnmappedMore(k, a.space, a.page, 0, true);
    assert Unmapped(k, a.space, a.page, 0, true) == k;
    assert t == Unmap(k, a);
    assert s.free[0] != s.pt[a].frame;
  }

  ghost predicate CanFault(s: State, a: Va) {
    a.page < MAXPAGES && a in s.pt && s.pt[a].flags.u && s.pt[a].flags.cow
  }

  lemma Sizes(p: Phys)
    requires Structure(p)
    ensures |p.refs| == |p.mem|
  {
  }

  lemma OnePage(va: nat)
    requires va % PGSIZE == 0
    ensures Pages(va, PGSIZE) == 1
  {
  }

  lemma Aligned(page: nat)
    ensures page * PGSIZE / PGSIZE == page && page * PGSIZE % PGSIZE == 0
  {
  }

  lemma FreeSwap(p: Phys, free: seq<nat>, free': seq<nat>)
    requires Structure(p)
    ensures AbsOf(p, free') == AbsOf(p, free).(free := free')
  {
    hide PtOf, FrameMap;
  }

  /** `n` pages from `first` on unmapped. */
  ghost function Unmapped(s: State, root: nat, first: nat, n: nat, doFree: bool): State {
    if doFree then UnmapPages(s, root, first, n) else s.(pt := s.pt - PagesOf(root, first, n))
  }

  lemma UnmappedMore(s: State, root: nat, first: nat, n: nat, doFree: bool)
    ensures var t, a := Unmapped(s, root, first, n, doFree), Va(root, first + n);
      Unmapped(s, root, first, n + 1, doFree) == if doFree then UnmapPage(t, a) else t.(pt := t.pt - {a})
  {
  }

  /** Exactly the range is removed; every other page keeps its entry. */
  lemma {:induction false} UnmappedKeeps(s: State, root: nat, first: nat, n: nat, doFree: bool, a: Va)
    requires a.space != root || a.page < first || a.page >= first + n
    requires doFree ==> Inv(s)
    ensures a in s.pt <==> a in Unmapped(s, root, first, n, doFree).pt
    ensures a in s.pt ==> Unmapped(s, root, first, n, doFree).pt[a] == s.pt[a]
    ensures doFree ==> Inv(Unmapped(s, root, first, n, doFree))
  {
    if doFree { UnmapPagesOk(s, root, first, n, map[]); }
    hide Inv;
    if n > 0 { UnmappedKeeps(s, root, first, n - 1, doFree, a); }
  }
}
