/**
 A snapshot of physical memory with the frames it uses for tables and for user data, its meaning as
 a state of the flat machine in `Cow`, and the small changes the kernel makes to it.
 */
module Physical {
  import opened Options
  import opened Cow
  import opened PageTable

  /** `tables` says which frame holds which table; `data` which frames hold user data. */
  datatype Phys = Phys(mem: Memory, refs: seq<int>, tables: Tables, data: set<nat>)

  ghost predicate FramesOk(p: Phys)
    requires TablesOk(p.mem, p.tables)
  {
    && |p.refs| == |p.mem|
    && (forall f :: f in p.data ==> f < |p.mem| && p.mem[f].Bytes?)
    && (forall n :: n in p.tables ==> p.refs[p.tables[n]] == 1)
  }

  ghost predicate Structure(p: Phys) {
    TreeOk(p.mem, p.tables, {}) && LeavesOk(p.mem, p.tables, p.data) && FramesOk(p)
  }

  ghost function FrameMap(p: Phys): map<nat, Frame>
    requires TablesOk(p.mem, p.tables) && FramesOk(p)
  {
    map f | f in p.data :: Frame(p.mem[f].page, p.refs[f])
  }

  ghost function AbsOf(p: Phys, free: seq<nat>): State
    requires Structure(p)
  {
    State(PtOf(p.mem, p.tables), FrameMap(p), free)
  }

  // ---- reading ----

  lemma TableAt(p: Phys, n: Node)
    requires Structure(p) && n in p.tables
    ensures |p.refs| == |p.mem| && p.tables[n] < |p.mem| && p.mem[p.tables[n]].Table? && p.refs[p.tables[n]] == 1
    ensures n.level == 2 ==> n == Root(p.tables[n])
  {
  }

  lemma DataAt(p: Phys, f: nat)
    requires Structure(p) && f in p.data
    ensures f < |p.mem| == |p.refs| && p.mem[f].Bytes? && !IsTable(p.tables, f)
    ensures forall free :: f in AbsOf(p, free).frames && AbsOf(p, free).frames[f] == Frame(p.mem[f].page, p.refs[f])
  {
    hide PtOf;
  }

  lemma DataIff(p: Phys, f: nat, free: seq<nat>)
    requires Structure(p)
    ensures f in p.data <==> f in AbsOf(p, free).frames
  {
  }

  /** What the map says of a page whose lowest table exists. */
  lemma PtAt(p: Phys, a: Va, free: seq<nat>)
    requires Structure(p)
    ensures LeafNode(a) in p.tables ==> p.tables[LeafNode(a)] < |p.mem| && p.mem[p.tables[LeafNode(a)]].Table?
    ensures LeafNode(a) in p.tables ==>
      var e := p.mem[p.tables[LeafNode(a)]].t[a.page % ENTRIES];
      && (a in AbsOf(p, free).pt <==> e.v)
      && (e.v ==> AbsOf(p, free).pt[a] == Leaf(e.frame, e.flags) && e.frame in p.data && (e.flags.r || e.flags.w || e.flags.x))
    ensures LeafNode(a) !in p.tables ==> a !in AbsOf(p, free).pt
  {
    hide PtOf;
  }

  lemma FollowLink(p: Phys, n: Node, i: nat)
    requires Structure(p) && n in p.tables && n.level > 0 && i < ENTRIES
    ensures p.tables[n] < |p.mem| && p.mem[p.tables[n]].Table?
    ensures var e := p.mem[p.tables[n]].t[i];
      && (e.v <==> n.Child(i) in p.tables)
      && (e.v ==> p.tables[n.Child(i)] == e.frame)
  {
    ChildParent(n, i);
    var e := Entry(p.mem, p.tables, n, i);
  }

  /** Where the way to a page breaks off there is no lowest table for it. */
  lemma NotBelow(p: Phys, root: nat, level: nat, page: nat)
    requires Structure(p) && 0 < level <= 2 && PathNode(root, level - 1, page) !in p.tables
    ensures LeafNode(Va(root, page)) !in p.tables
  {
    if level == 2 && PathNode(root, 0, page) in p.tables { PathAbove(p.mem, p.tables, root, 1, page); }
  }

  lemma PathKnown(p: Phys, root: nat, page: nat)
    requires Structure(p) && PathNode(root, 0, page) in p.tables
    ensures PathNode(root, 1, page) in p.tables && PathNode(root, 2, page) in p.tables
  {
    PathAbove(p.mem, p.tables, root, 1, page);
    PathAbove(p.mem, p.tables, root, 2, page);
  }

  // ---- storing a leaf entry ----

  ghost function WithPte(pt: map<Va, Leaf>, a: Va, e: Pte): map<Va, Leaf> {
    if e.v then pt[a := Leaf(e.frame, e.flags)] else pt - {a}
  }

  ghost function Stored(p: Phys, a: Va, e: Pte): Phys
    requires Structure(p) && LeafNode(a) in p.tables
  {
    p.(mem := StoreLeaf(p.mem, p.tables, a, e))
  }

  lemma StoredFrames(p: Phys, a: Va, e: Pte)
    requires Structure(p) && LeafNode(a) in p.tables
    requires TablesOk(Stored(p, a, e).mem, p.tables)
    ensures FramesOk(Stored(p, a, e)) && FrameMap(Stored(p, a, e)) == FrameMap(p)
  {
    hide Linked, Rooted, LeavesOk, PtOf;
  }

  lemma StoredOk(p: Phys, a: Va, e: Pte, free: seq<nat>)
    requires Structure(p) && LeafNode(a) in p.tables
    requires e.v ==> e.frame in p.data && (e.flags.r || e.flags.w || e.flags.x)
    ensures Structure(Stored(p, a, e))
    ensures AbsOf(Stored(p, a, e), free) == AbsOf(p, free).(pt := WithPte(AbsOf(p, free).pt, a, e))
  {
    SetLeafTree(p.mem, p.tables, {}, a, e);
    SetLeafPt(p.mem, p.tables, a, e);
    SetLeafOk(p.mem, p.tables, p.data, a, e);
    StoredFrames(p, a, e);
    hide Linked, Rooted, LeavesOk, PtOf, FramesOk, FrameMap, StoreLeaf, TablesOk;
  }

  // ---- a new table ----

  ghost function HungIn(p: Phys, n: Node, i: nat, f: nat): Phys
    requires Structure(p) && n in p.tables && n.level > 0 && i < ENTRIES && f < |p.mem| && !IsTable(p.tables, f)
  {
    Phys(Hung(p.mem, p.tables[n], i, f), p.refs[f := 1], p.tables[n.Child(i) := f], p.data)
  }

  lemma HungFrames(p: Phys, n: Node, i: nat, f: nat)
    requires Structure(p) && n in p.tables && n.level > 0 && i < ENTRIES
    requires f < |p.mem| && !IsTable(p.tables, f) && f !in p.data
    requires TablesOk(HungIn(p, n, i, f).mem, HungIn(p, n, i, f).tables)
    ensures FramesOk(HungIn(p, n, i, f)) && FrameMap(HungIn(p, n, i, f)) == FrameMap(p)
  {
    hide Linked, Rooted, LeavesOk, PtOf;
  }

  lemma HungOk(p: Phys, n: Node, i: nat, f: nat, free: seq<nat>)
    requires Structure(p) && n in p.tables && n.level > 0 && i < ENTRIES && !Entry(p.mem, p.tables, n, i).v
    requires f < |p.mem| && !IsTable(p.tables, f) && f !in p.data
    ensures n.Child(i) !in p.tables
    ensures Structure(HungIn(p, n, i, f)) && AbsOf(HungIn(p, n, i, f), free) == AbsOf(p, free)
  {
    NoChild(p.mem, p.tables, {}, n, i);
    NewTableLinked(p.mem, p.tables, n, i, f);
    NewTableRooted(p.mem, p.tables, n, i, f);
    NewTablePt(p.mem, p.tables, n, i, f);
    NewTableLeaves(p.mem, p.tables, n, i, f, p.data);
    HungFrames(p, n, i, f);
    hide TablesOk, Linked, Rooted, LeavesOk, PtOf, FramesOk, FrameMap, Hung;
  }

  // ---- data frames ----

  ghost function WithCount(p: Phys, f: nat, n: int): Phys
    requires f < |p.refs|
  {
    p.(refs := p.refs[f := n])
  }

  lemma WithCountOk(p: Phys, f: nat, n: int, free: seq<nat>)
    requires Structure(p) && f in p.data
    ensures f < |p.refs| && Structure(WithCount(p, f, n))
    ensures var s := AbsOf(p, free); f in s.frames && AbsOf(WithCount(p, f, n), free) == s.(frames := s.frames[f := s.frames[f].(refs := n)])
  {
    DataAt(p, f);
    hide PtOf;
  }

  ghost function WithPage(p: Phys, f: nat, page: Page): Phys
    requires f < |p.mem|
  {
    p.(mem := p.mem[f := Bytes(page)])
  }

  lemma WithPageOk(p: Phys, f: nat, page: Page, free: seq<nat>)
    requires Structure(p) && f in p.data
    ensures f < |p.mem| && Structure(WithPage(p, f, page))
    ensures var s := AbsOf(p, free);
      f in s.frames && AbsOf(WithPage(p, f, page), free) == s.(frames := s.frames[f := s.frames[f].(page := page)])
  {
    DataAt(p, f);
    OtherFrame(p.mem, p.tables, f, Bytes(page), {});
    hide PtOf, Linked, Rooted, LeavesOk;
  }

  /** A frame from the free list becomes a data frame. */
  ghost function NewData(p: Phys, f: nat, page: Page): Phys
    requires f < |p.mem| == |p.refs|
  {
    Phys(p.mem[f := Bytes(page)], p.refs[f := 1], p.tables, p.data + {f})
  }

  lemma NewDataOk(p: Phys, f: nat, page: Page, free: seq<nat>)
    requires Structure(p) && f < |p.mem| == |p.refs| && !IsTable(p.tables, f) && f !in p.data
    ensures Structure(NewData(p, f, page))
    ensures AbsOf(NewData(p, f, page), free) == AbsOf(p, free).(frames := AbsOf(p, free).frames[f := Frame(page, 1)])
  {
    OtherFrame(p.mem, p.tables, f, Bytes(page), {});
    assert LeavesOk(p.mem[f := Bytes(page)], p.tables, p.data + {f});
    hide PtOf, Linked, Rooted, LeavesOk;
  }

  /** A data frame that nothing maps goes back to the free list. */
  ghost function Freed(p: Phys, f: nat, next: Option<nat>): Phys
    requires f < |p.mem| == |p.refs|
  {
    Phys(p.mem[f := Link(next)], p.refs[f := p.refs[f] - 1], p.tables, p.data - {f})
  }

  lemma FreedFrames(p: Phys, f: nat, next: Option<nat>)
    requires Structure(p) && f in p.data && f < |p.mem| == |p.refs| && !IsTable(p.tables, f)
    requires TablesOk(Freed(p, f, next).mem, p.tables)
    ensures FramesOk(Freed(p, f, next)) && FrameMap(Freed(p, f, next)) == FrameMap(p) - {f}
  {
    hide Linked, Rooted, LeavesOk, PtOf;
  }

  lemma FreedOk(p: Phys, f: nat, next: Option<nat>, free: seq<nat>)
    requires Structure(p) && f in p.data && Mappers(AbsOf(p, free).pt, f) == {}
    ensures f < |p.mem| == |p.refs| && Structure(Freed(p, f, next))
    ensures AbsOf(Freed(p, f, next), free) == AbsOf(p, free).(frames := AbsOf(p, free).frames - {f})
  {
    DataAt(p, f);
    OtherFrame(p.mem, p.tables, f, Link(next), {});
    LeavesWithout(p.mem[f := Link(next)], p.tables, p.data, f);
    FreedFrames(p, f, next);
    hide PtOf, Linked, Rooted, LeavesOk, FramesOk, FrameMap, TablesOk;
  }

  /** A zeroed page made the top table of a new space. */
  ghost function NewRoot(p: Phys, f: nat): Phys
    requires f < |p.mem| == |p.refs|
  {
    Phys(p.mem[f := Table(Zeroed())], p.refs[f := 1], p.tables[Root(f) := f], p.data)
  }

  lemma TopOf(p: Phys, n: Node)
    requires TablesOk(p.mem, p.tables) && Rooted(p.mem, p.tables) && n in p.tables
    ensures IsTable(p.tables, n.root)
  {
    if n.level == 0 { assert n.Parent() in p.tables && n.Parent().Parent() in p.tables; }
    if n.level == 1 { assert n.Parent() in p.tables; }
  }

  lemma RootsTaken(p: Phys, f: nat)
    requires TreeOk(p.mem, p.tables, {}) && !IsTable(p.tables, f)
    ensures forall n :: n in p.tables ==> n.root != f
  {
    forall n | n in p.tables ensures n.root != f { TopOf(p, n); }
  }

  lemma NewRootTables(p: Phys, f: nat)
    requires TablesOk(p.mem, p.tables) && f < |p.mem| == |p.refs| && !IsTable(p.tables, f)
    ensures Root(f) !in p.tables && TablesOk(NewRoot(p, f).mem, NewRoot(p, f).tables)
    ensures NewRoot(p, f).mem[f] == Table(Zeroed())
    ensures forall m :: m in p.tables ==>
      && p.tables[m] < |p.mem| && p.mem[p.tables[m]].Table?
      && NewRoot(p, f).tables[m] == p.tables[m] && NewRoot(p, f).mem[p.tables[m]] == p.mem[p.tables[m]]
  {
    hide Zeroed;
  }

  lemma NewRootEntries(p: Phys, f: nat)
    requires TreeOk(p.mem, p.tables, {}) && f < |p.mem| == |p.refs| && !IsTable(p.tables, f)
    ensures Root(f) !in p.tables && TablesOk(NewRoot(p, f).mem, NewRoot(p, f).tables)
    ensures forall j: nat :: j < ENTRIES ==> !Entry(NewRoot(p, f).mem, NewRoot(p, f).tables, Root(f), j).v
    ensures forall m, j: nat :: m in p.tables && j < ENTRIES ==>
      Entry(NewRoot(p, f).mem, NewRoot(p, f).tables, m, j) == Entry(p.mem, p.tables, m, j)
    ensures forall n :: n in p.tables ==> n.root != f
  {
    RootsTaken(p, f);
    NewRootTables(p, f);
    hide Linked, Rooted, TablesOk;
  }

  lemma NewRootRooted(p: Phys, f: nat)
    requires TreeOk(p.mem, p.tables, {}) && f < |p.mem| == |p.refs| && !IsTable(p.tables, f)
    ensures TablesOk(NewRoot(p, f).mem, NewRoot(p, f).tables) && Rooted(NewRoot(p, f).mem, NewRoot(p, f).tables)
  {
    NewRootEntries(p, f);
    hide TablesOk, Entry, Linked, Node.Parent, Node.Slot;
  }

  lemma NewRootTree(p: Phys, f: nat)
    requires TreeOk(p.mem, p.tables, {}) && f < |p.mem| == |p.refs| && !IsTable(p.tables, f)
    ensures TreeOk(NewRoot(p, f).mem, NewRoot(p, f).tables, {})
  {
    NewRootEntries(p, f);
    NewRootRooted(p, f);
    hide TablesOk, Entry, Rooted;
  }

  lemma NewRootPt(p: Phys, f: nat)
    requires TreeOk(p.mem, p.tables, {}) && f < |p.mem| == |p.refs| && !IsTable(p.tables, f)
    ensures TablesOk(NewRoot(p, f).mem, NewRoot(p, f).tables)
    ensures PtOf(NewRoot(p, f).mem, NewRoot(p, f).tables) == PtOf(p.mem, p.tables)
    ensures forall a :: a in PtOf(p.mem, p.tables) ==> a.space != f
  {
    NewRootEntries(p, f);
    var q := NewRoot(p, f);
    forall a ensures SameAt(p.mem, p.tables, q.mem, q.tables, a) {
      assert LeafNode(a) != Root(f);
    }
    PtSame(p.mem, p.tables, q.mem, q.tables);
  }

  lemma NewRootLeaves(p: Phys, f: nat)
    requires TreeOk(p.mem, p.tables, {}) && f < |p.mem| == |p.refs| && !IsTable(p.tables, f)
    requires LeavesOk(p.mem, p.tables, p.data)
    ensures TablesOk(NewRoot(p, f).mem, NewRoot(p, f).tables) && LeavesOk(NewRoot(p, f).mem, NewRoot(p, f).tables, p.data)
  {
    NewRootEntries(p, f);
    hide TablesOk, Entry, Linked, Rooted;
  }

  lemma NewRootOk(p: Phys, f: nat, free: seq<nat>)
    requires Structure(p) && f < |p.mem| == |p.refs| && !IsTable(p.tables, f) && f !in p.data
    ensures Root(f) !in p.tables && Structure(NewRoot(p, f)) && AbsOf(NewRoot(p, f), free) == AbsOf(p, free)
    ensures forall a :: a in AbsOf(p, free).pt ==> a.space != f
  {
    NewRootEntries(p, f);
    NewRootTree(p, f);
    NewRootPt(p, f);
    NewRootLeaves(p, f);
    hide Linked, Rooted, LeavesOk, PtOf, Zeroed;
  }
}
