/**
 What `freewalk` takes apart: the tables below a table, removed from the leaves of the tree up. While
 a table has been freed and its parent still points at it, that one entry dangles.
 */
module FreeTables {
  import opened Options
  import opened Counting
  import opened Cow
  import opened PageTable
  import opened Physical

  // ---- subtrees ----

  /** The table at level `l` above `m`. */
  function Above(m: Node, l: nat): Node
    decreases l - m.level
  {
    if m.level >= l then m else Above(m.Parent(), l)
  }

  predicate InSubtree(m: Node, n: Node) {
    m.level <= n.level && Above(m, n.level) == n
  }

  /** `m` is still there when the children of `n` below slot `i` have been freed. */
  predicate Kept(m: Node, n: Node, i: nat) {
    !InSubtree(m, n) || m == n || n.level == 0 || Above(m, n.level - 1).Slot() >= i
  }

  lemma {:induction false} AboveStep(m: Node, l: nat)
    requires m.level < l
    ensures Above(m, l) == Above(m, l - 1).Parent()
    ensures Above(m, l - 1).level == l - 1
    decreases l - m.level
  {
    if m.level < l - 1 { AboveStep(m.Parent(), l); }
  }

  lemma KeptStep(m: Node, n: Node, i: nat)
    requires n.level > 0 && i < ENTRIES
    ensures Kept(m, n, i) && !InSubtree(m, n.Child(i)) <==> Kept(m, n, i + 1)
    ensures InSubtree(m, n.Child(i)) ==> InSubtree(m, n) && m != n
  {
    ChildParent(n, i);
    if m.level < n.level {
      AboveStep(m, n.level);
      ParentChild(Above(m, n.level - 1));
    }
  }

  lemma KeptEnds(m: Node, n: Node)
    ensures Kept(m, n, 0)
    ensures n.level > 0 ==> (Kept(m, n, ENTRIES) <==> !InSubtree(m, n) || m == n)
    ensures n.level == 0 ==> (InSubtree(m, n) <==> m == n)
    ensures InSubtree(n, n)
  {
  }

  ghost function Pruned(tables: Tables, n: Node, i: nat): Tables {
    map m | m in tables && Kept(m, n, i) :: tables[m]
  }

  ghost function Without(tables: Tables, n: Node): Tables {
    map m | m in tables && !InSubtree(m, n) :: tables[m]
  }

  lemma PrunedStep(tables: Tables, n: Node, i: nat)
    requires n.level > 0 && i < ENTRIES
    ensures Without(Pruned(tables, n, i), n.Child(i)) == Pruned(tables, n, i + 1)
  {
    forall m ensures Kept(m, n, i) && !InSubtree(m, n.Child(i)) <==> Kept(m, n, i + 1) { KeptStep(m, n, i); }
    hide Kept, InSubtree;
  }

  lemma PrunedEnds(tables: Tables, n: Node)
    ensures Pruned(tables, n, 0) == tables
    ensures Pruned(tables, n, ENTRIES) - {n} == Without(tables, n)
  {
    forall m
      ensures Kept(m, n, 0)
      ensures m != n && m in tables ==> (Kept(m, n, ENTRIES) <==> !InSubtree(m, n))
      ensures InSubtree(n, n)
    {
      KeptEnds(m, n);
    }
    hide Kept, InSubtree;
  }

  /** The frames of the tables in `tables` that are not in `left`. */
  ghost function FramesGone(tables: Tables, left: Tables): set<nat> {
    set m | m in tables && m !in left :: tables[m]
  }

  // ---- taking a table away ----

  ghost predicate StructureBut(p: Phys, dangling: set<Node>) {
    TreeOk(p.mem, p.tables, dangling) && LeavesOk(p.mem, p.tables, p.data) && FramesOk(p)
  }

  /** No page at or below `n` is mapped. */
  ghost predicate Leafless(pt: map<Va, Leaf>, n: Node) {
    forall a :: a in pt ==> !InSubtree(LeafNode(a), n)
  }

  lemma LeaflessChild(pt: map<Va, Leaf>, n: Node, i: nat)
    requires Leafless(pt, n) && n.level > 0 && i < ENTRIES
    ensures Leafless(pt, n.Child(i))
  {
    forall a | a in pt ensures !InSubtree(LeafNode(a), n.Child(i)) { KeptStep(LeafNode(a), n, i); }
  }

  lemma ClearLinkLinked(p: Phys, n: Node, i: nat)
    requires n in p.tables && n.level > 0 && i < ENTRIES && StructureBut(p, {n.Child(i)}) && n.Child(i) !in p.tables
    ensures TablesOk(WithEntry(p.mem, p.tables[n], i, EMPTY), p.tables)
    ensures Linked(WithEntry(p.mem, p.tables[n], i, EMPTY), p.tables, {})
  {
    var mem' := WithEntry(p.mem, p.tables[n], i, EMPTY);
    EntryAfter(p.mem, p.tables, n, i, EMPTY);
    hide WithEntry, Entry, TablesOk, FramesOk, Rooted, LeavesOk;
    forall m, j: nat | m in p.tables && m.level > 0 && j < ENTRIES && Entry(mem', p.tables, m, j).v
      ensures m.Child(j) != n.Child(i)
    {
      ChildParent(m, j);
      ChildParent(n, i);
    }
  }

  lemma ClearLinkRooted(p: Phys, n: Node, i: nat)
    requires n in p.tables && n.level > 0 && i < ENTRIES && StructureBut(p, {n.Child(i)}) && n.Child(i) !in p.tables
    ensures TablesOk(WithEntry(p.mem, p.tables[n], i, EMPTY), p.tables)
    ensures Rooted(WithEntry(p.mem, p.tables[n], i, EMPTY), p.tables)
  {
    EntryAfter(p.mem, p.tables, n, i, EMPTY);
    hide WithEntry, Entry, TablesOk, FramesOk, Linked, LeavesOk, Node.Parent, Node.Slot, Node.Child;
    forall m | m in p.tables && m.level < 2 ensures (m.Parent() != n || m.Slot() != i) && m.Slot() < ENTRIES {
      ParentChild(m);
      SlotSmall(m);
    }
  }

  lemma ClearLinkLeaves(p: Phys, n: Node, i: nat)
    requires n in p.tables && n.level > 0 && i < ENTRIES && StructureBut(p, {n.Child(i)})
    ensures TablesOk(WithEntry(p.mem, p.tables[n], i, EMPTY), p.tables)
    ensures LeavesOk(WithEntry(p.mem, p.tables[n], i, EMPTY), p.tables, p.data)
  {
    EntryAfter(p.mem, p.tables, n, i, EMPTY);
    hide WithEntry, Entry, TablesOk, FramesOk, Linked, Rooted;
  }

  lemma ClearLinkPt(p: Phys, n: Node, i: nat)
    requires n in p.tables && n.level > 0 && i < ENTRIES && StructureBut(p, {n.Child(i)})
    ensures TablesOk(WithEntry(p.mem, p.tables[n], i, EMPTY), p.tables)
    ensures PtOf(WithEntry(p.mem, p.tables[n], i, EMPTY), p.tables) == PtOf(p.mem, p.tables)
  {
    var mem' := WithEntry(p.mem, p.tables[n], i, EMPTY);
    EntryAfter(p.mem, p.tables, n, i, EMPTY);
    assert forall b :: LeafNode(b) != n;
    forall b ensures SameAt(p.mem, p.tables, mem', p.tables, b) {
      hide WithEntry, Entry, TablesOk, FramesOk, Linked, Rooted, LeavesOk, LeafNode;
    }
    hide *;
    PtSame(p.mem, p.tables, mem', p.tables);
  }

  lemma ClearLinkFrames(p: Phys, n: Node, i: nat)
    requires n in p.tables && n.level > 0 && i < ENTRIES && StructureBut(p, {n.Child(i)})
    requires TablesOk(WithEntry(p.mem, p.tables[n], i, EMPTY), p.tables)
    ensures var p' := p.(mem := WithEntry(p.mem, p.tables[n], i, EMPTY));
      FramesOk(p') && FrameMap(p') == FrameMap(p)
  {
    hide Linked, Rooted, LeavesOk;
  }

  lemma ClearLink(p: Phys, n: Node, i: nat)
    requires n in p.tables && n.level > 0 && i < ENTRIES && StructureBut(p, {n.Child(i)}) && n.Child(i) !in p.tables
    ensures p.tables[n] < |p.mem| && p.mem[p.tables[n]].Table?
    ensures var p' := p.(mem := WithEntry(p.mem, p.tables[n], i, EMPTY));
      StructureBut(p', {}) && PtOf(p'.mem, p'.tables) == PtOf(p.mem, p.tables) && FrameMap(p') == FrameMap(p)
  {
    ClearLinkLinked(p, n, i);
    ClearLinkRooted(p, n, i);
    ClearLinkLeaves(p, n, i);
    ClearLinkPt(p, n, i);
    ClearLinkFrames(p, n, i);
    hide Linked, Rooted, LeavesOk, FramesOk, FrameMap, PtOf, WithEntry;
  }

  /** An emptied table goes back to the free list. */
  ghost function Dropped(p: Phys, n: Node, next: Option<nat>): Phys
    requires n in p.tables && p.tables[n] < |p.mem| == |p.refs|
  {
    Phys(p.mem[p.tables[n] := Link(next)], p.refs[p.tables[n] := p.refs[p.tables[n]] - 1], p.tables - {n}, p.data)
  }

  ghost predicate Emptied(p: Phys, n: Node)
    requires TablesOk(p.mem, p.tables) && n in p.tables
  {
    forall i: nat :: i < ENTRIES ==> !Entry(p.mem, p.tables, n, i).v
  }

  lemma DroppedTables(p: Phys, n: Node, next: Option<nat>)
    requires TablesOk(p.mem, p.tables) && n in p.tables && |p.mem| == |p.refs|
    ensures var q := Dropped(p, n, next);
      && TablesOk(q.mem, q.tables)
      && forall m, j: nat :: m in q.tables && j < ENTRIES ==> Entry(q.mem, q.tables, m, j) == Entry(p.mem, p.tables, m, j)
  {
  }

  lemma SlotSmall(m: Node)
    ensures m.Slot() < ENTRIES
  {
  }

  lemma DroppedLinked(p: Phys, n: Node, next: Option<nat>)
    requires StructureBut(p, {}) && n in p.tables && |p.mem| == |p.refs| && Emptied(p, n)
    ensures var q := Dropped(p, n, next);
      TablesOk(q.mem, q.tables) && Linked(q.mem, q.tables, {n}) && LeavesOk(q.mem, q.tables, q.data)
  {
    DroppedTables(p, n, next);
    hide Entry, TablesOk, FramesOk, Rooted;
  }

  lemma DroppedRooted(p: Phys, n: Node, next: Option<nat>)
    requires StructureBut(p, {}) && n in p.tables && |p.mem| == |p.refs| && Emptied(p, n)
    ensures var q := Dropped(p, n, next);
      TablesOk(q.mem, q.tables) && Rooted(q.mem, q.tables)
  {
    var q := Dropped(p, n, next);
    DroppedTables(p, n, next);
    assert q.tables == p.tables - {n};
    hide Entry, TablesOk, FramesOk, Linked, LeavesOk, Dropped, Node.Parent, Node.Slot;
    forall m | m in q.tables && m.level < 2 ensures m.Parent() in q.tables && m.Slot() < ENTRIES {
      SlotSmall(m);
      assert m in p.tables;
    }
  }

  lemma DroppedAt(p: Phys, n: Node, next: Option<nat>, b: Va)
    requires StructureBut(p, {}) && n in p.tables && |p.mem| == |p.refs| && Emptied(p, n)
    ensures var q := Dropped(p, n, next);
      TablesOk(q.mem, q.tables) && SameAt(p.mem, p.tables, q.mem, q.tables, b)
  {
    DroppedTables(p, n, next);
    var q, m, i := Dropped(p, n, next), LeafNode(b), b.page % ENTRIES;
    assert q.tables == p.tables - {n};
    hide Entry, TablesOk, FramesOk, Linked, Rooted, LeavesOk, LeafNode, Dropped;
    if m == n {
      assert !Entry(p.mem, p.tables, n, i).v;
    } else if m in p.tables {
      assert Entry(q.mem, q.tables, m, i) == Entry(p.mem, p.tables, m, i);
    }
  }

  lemma DroppedPt(p: Phys, n: Node, next: Option<nat>)
    requires StructureBut(p, {}) && n in p.tables && |p.mem| == |p.refs| && Emptied(p, n)
    ensures var q := Dropped(p, n, next);
      TablesOk(q.mem, q.tables) && PtOf(q.mem, q.tables) == PtOf(p.mem, p.tables)
  {
    var q := Dropped(p, n, next);
    DroppedTables(p, n, next);
    hide *;
    forall b ensures SameAt(p.mem, p.tables, q.mem, q.tables, b) { DroppedAt(p, n, next, b); }
    PtSame(p.mem, p.tables, q.mem, q.tables);
  }

  lemma DroppedFrames(p: Phys, n: Node, next: Option<nat>)
    requires StructureBut(p, {}) && n in p.tables && |p.mem| == |p.refs|
    requires TablesOk(Dropped(p, n, next).mem, Dropped(p, n, next).tables)
    ensures FramesOk(Dropped(p, n, next)) && FrameMap(Dropped(p, n, next)) == FrameMap(p)
  {
    hide Linked, Rooted, LeavesOk;
  }

  lemma DroppedOk(p: Phys, n: Node, next: Option<nat>)
    requires StructureBut(p, {}) && n in p.tables && |p.mem| == |p.refs| && Emptied(p, n)
    ensures p.tables[n] < |p.mem|
    ensures var q := Dropped(p, n, next);
      StructureBut(q, {n}) && PtOf(q.mem, q.tables) == PtOf(p.mem, p.tables) && FrameMap(q) == FrameMap(p)
  {
    DroppedLinked(p, n, next);
    DroppedRooted(p, n, next);
    DroppedPt(p, n, next);
    DroppedFrames(p, n, next);
    hide Linked, Rooted, LeavesOk, FramesOk, FrameMap, PtOf;
  }

  // ---- the loop of freewalk ----

  /** A valid entry of a table without pages below it points at a table. */
  lemma PointsDown(p: Phys, n: Node, i: nat)
    requires StructureBut(p, {}) && n in p.tables && i < ENTRIES && Leafless(PtOf(p.mem, p.tables), n)
    ensures p.tables[n] < |p.mem| == |p.refs| && p.mem[p.tables[n]].Table? && p.refs[p.tables[n]] == 1
    ensures var e := p.mem[p.tables[n]].t[i];
      e.v ==> n.level > 0 && n.Child(i) in p.tables && p.tables[n.Child(i)] == e.frame && !e.flags.r && !e.flags.w && !e.flags.x
  {
    var e := Entry(p.mem, p.tables, n, i);
    if e.v && n.level == 0 {
      var a := PageIn(n, i);
      assert LeafNode(a) == n && a.page % ENTRIES == i;
      assert HasLeaf(p.mem, p.tables, a);
      KeptEnds(n, n);
    }
    hide PtOf;
  }

  /** Below a missing table there are no tables. */
  lemma {:induction false} NothingBelow(p: Phys, c: Node, m: Node)
    requires StructureBut(p, {}) && m in p.tables && c.level < 2
    requires c !in p.tables || (c.Parent() in p.tables && !Entry(p.mem, p.tables, c.Parent(), c.Slot()).v)
    ensures !InSubtree(m, c)
    decreases c.level - m.level
  {
    if m.level < c.level { NothingBelow(p, c, m.Parent()); }
  }

  lemma GoneMore(t0: Tables, t1: Tables, t2: Tables)
    requires forall m :: m in t1 ==> m in t0 && t0[m] == t1[m]
    requires forall m :: m in t2 ==> m in t1 && t1[m] == t2[m]
    ensures FramesGone(t0, t2) == FramesGone(t0, t1) + FramesGone(t1, t2)
  {
    forall f | f in FramesGone(t0, t1) + FramesGone(t1, t2) ensures f in FramesGone(t0, t2) {
      if f in FramesGone(t0, t1) {
        var m :| m in t0 && m !in t1 && t0[m] == f;
        assert m !in t2;
      } else {
        var m :| m in t1 && m !in t2 && t1[m] == f;
        assert m in t0 && t0[m] == f;
      }
    }
    forall f | f in FramesGone(t0, t2) ensures f in FramesGone(t0, t1) + FramesGone(t1, t2) {
      var m :| m in t0 && m !in t2 && t0[m] == f;
      if m in t1 { assert m in t1 && m !in t2 && t1[m] == f; } else { assert m in t0 && m !in t1; }
    }
  }

  lemma GoneOne(t: Tables, n: Node)
    requires n in t
    ensures FramesGone(t, t - {n}) == {t[n]}
  {
  }

  lemma ElementsFront(f: nat, free: seq<nat>)
    ensures Elements([f] + free) == Elements(free) + {f}
  {
  }

  /** Tables have gone to the free list; those left, but for `except`, are as they were. */
  ghost predicate Pruning(p: Phys, free: seq<nat>, q: Phys, free': seq<nat>, except: set<Node>) {
    && q.data == p.data && |q.mem| == |p.mem|
    && (forall m :: m in q.tables ==> m in p.tables && p.tables[m] == q.tables[m])
    && (forall m :: m in q.tables && m !in except && q.tables[m] < |q.mem| ==> q.mem[q.tables[m]] == p.mem[q.tables[m]])
    && Elements(free') == Elements(free) + FramesGone(p.tables, q.tables)
  }

  lemma PruningNone(p: Phys, free: seq<nat>, except: set<Node>)
    ensures Pruning(p, free, p, free, except)
  {
  }

  lemma PruningTwice(p: Phys, f: seq<nat>, q: Phys, g: seq<nat>, r: Phys, h: seq<nat>, except: set<Node>)
    requires Pruning(p, f, q, g, except) && Pruning(q, g, r, h, except)
    ensures Pruning(p, f, r, h, except)
  {
    GoneMore(p.tables, q.tables, r.tables);
    hide Elements, FramesGone;
  }

  lemma PruningLess(p: Phys, f: seq<nat>, q: Phys, g: seq<nat>, except: set<Node>, more: set<Node>)
    requires Pruning(p, f, q, g, except) && except <= more
    ensures Pruning(p, f, q, g, more)
  {
    hide Elements, FramesGone;
  }

  /** The tables once slot `i` of `n` has been dealt with. */
  ghost function Skipped(tables: Tables, n: Node, i: nat): Tables {
    if n.level > 0 then Without(tables, n.Child(i)) else tables
  }

  lemma SkippedPruned(tables: Tables, n: Node, i: nat)
    requires i < ENTRIES
    ensures Skipped(Pruned(tables, n, i), n, i) == Pruned(tables, n, i + 1)
  {
    if n.level > 0 { PrunedStep(tables, n, i); }
  }

  lemma SkipsNothing(p: Phys, n: Node, i: nat)
    requires StructureBut(p, {}) && n in p.tables && i < ENTRIES && !Entry(p.mem, p.tables, n, i).v
    ensures Skipped(p.tables, n, i) == p.tables
  {
    if n.level > 0 {
      forall m | m in p.tables ensures !InSubtree(m, n.Child(i)) {
        ChildParent(n, i);
        NothingBelow(p, n.Child(i), m);
      }
      hide InSubtree;
    }
  }

  /** A subtree does not hold its parent. */
  lemma ParentStays(tables: Tables, n: Node, i: nat)
    requires n in tables && n.level > 0
    ensures n in Without(tables, n.Child(i)) && Without(tables, n.Child(i))[n] == tables[n]
    ensures n.Child(i) !in Without(tables, n.Child(i))
  {
    KeptEnds(n.Child(i), n.Child(i));
  }

  lemma ClearedPruning(p: Phys, free: seq<nat>, n: Node, i: nat)
    requires n in p.tables && p.tables[n] < |p.mem| && p.mem[p.tables[n]].Table? && i < ENTRIES && TablesOk(p.mem, p.tables)
    ensures Pruning(p, free, p.(mem := WithEntry(p.mem, p.tables[n], i, EMPTY)), free, {n})
  {
    hide Elements;
  }

  lemma DroppedPruning(p: Phys, free: seq<nat>, n: Node, next: Option<nat>)
    requires TablesOk(p.mem, p.tables) && n in p.tables && p.tables[n] < |p.mem| == |p.refs|
    ensures Pruning(p, free, Dropped(p, n, next), [p.tables[n]] + free, {})
  {
    GoneOne(p.tables, n);
    ElementsFront(p.tables[n], free);
    hide Elements, FramesGone;
  }

  lemma ExceptGone(p: Phys, f: seq<nat>, q: Phys, g: seq<nat>, n: Node)
    requires Pruning(p, f, q, g, {n}) && n !in q.tables
    ensures Pruning(p, f, q, g, {})
  {
    hide Elements, FramesGone;
  }
}
