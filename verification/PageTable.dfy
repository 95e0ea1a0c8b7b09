/**
 Sv39 page tables in physical memory (`kernel/vm.c`, section 4.4 of the RISC-V Privileged
 Architecture, Volume II). A table page is a frame of 512 entries; which frame holds which table is
 `tables`. The meaning of the tables is a finite map from pages to leaf entries, `PtOf`.
 */
module PageTable {
  import opened Options
  import opened Cow

  const ENTRIES := 512
  /** MAXVA / PGSIZE */
  const MAXPAGES := 0x400_0000

  datatype Pte = Pte(v: bool, frame: nat, flags: Flags)

  const NOFLAGS := Flags(false, false, false, false, false)
  const EMPTY := Pte(false, 0, NOFLAGS)

  type Entries = t: seq<Pte> | |t| == ENTRIES witness seq(ENTRIES, _ => EMPTY)

  function Zeroed(): (t: Entries)
    ensures forall i :: 0 <= i < ENTRIES ==> t[i] == EMPTY
  {
    seq(ENTRIES, _ => EMPTY)
  }

  /** A frame: bytes, a page table, or a link of the free list. */
  datatype Content = Bytes(page: Page) | Table(t: Entries) | Link(next: Option<nat>)

  type Memory = seq<Content>

  /** The table of `root` that covers, at `level`, the pages whose number starts with `prefix`. */
  datatype Node = Node(root: nat, level: nat, prefix: nat) {
    function Child(i: nat): Node
      requires level > 0
    {
      Node(root, level - 1, prefix * ENTRIES + i)
    }

    function Parent(): Node {
      Node(root, level + 1, prefix / ENTRIES)
    }

    function Slot(): nat {
      prefix % ENTRIES
    }
  }

  function Root(r: nat): Node {
    Node(r, 2, 0)
  }

  /** The lowest table for a page, and the page's entry in it. */
  function LeafNode(a: Va): Node {
    Node(a.space, 0, a.page / ENTRIES)
  }

  /** The page whose entry is number `i` of the lowest table `n`. */
  function PageIn(n: Node, i: nat): Va {
    Va(n.root, n.prefix * ENTRIES + i)
  }

  type Tables = map<Node, nat>

  ghost predicate TablesOk(mem: Memory, tables: Tables) {
    && (forall n :: n in tables ==>
          && tables[n] < |mem| && mem[tables[n]].Table?
          && n.level <= 2 && (n.level == 2 ==> n == Root(tables[n])))
    && (forall n, m :: n in tables && m in tables && tables[n] == tables[m] ==> n == m)
  }

  ghost function Entry(mem: Memory, tables: Tables, n: Node, i: nat): Pte
    requires n in tables && tables[n] < |mem| && mem[tables[n]].Table? && i < ENTRIES
  {
    mem[tables[n]].t[i]
  }

  /** A valid entry above the lowest level points at the table it should, except to the dangling ones. */
  ghost predicate Linked(mem: Memory, tables: Tables, dangling: set<Node>)
    requires TablesOk(mem, tables)
  {
    forall n, i: nat :: n in tables && n.level > 0 && i < ENTRIES && Entry(mem, tables, n, i).v ==>
      var e := Entry(mem, tables, n, i);
      && (n.Child(i) in dangling || (n.Child(i) in tables && tables[n.Child(i)] == e.frame))
      && !e.flags.r && !e.flags.w && !e.flags.x
  }

  /** Every table below the top is pointed at by its parent. */
  ghost predicate Rooted(mem: Memory, tables: Tables)
    requires TablesOk(mem, tables)
  {
    forall n :: n in tables && n.level < 2 ==>
      && n.Parent() in tables
      && Entry(mem, tables, n.Parent(), n.Slot()).v
      && Entry(mem, tables, n.Parent(), n.Slot()).frame == tables[n]
  }

  /** Leaf entries carry some permission, which is how the code tells them from pointers, and map data frames. */
  ghost predicate LeavesOk(mem: Memory, tables: Tables, data: set<nat>)
    requires TablesOk(mem, tables)
  {
    forall n, i: nat :: n in tables && n.level == 0 && i < ENTRIES && Entry(mem, tables, n, i).v ==>
      var e := Entry(mem, tables, n, i);
      e.frame in data && (e.flags.r || e.flags.w || e.flags.x)
  }

  // ---- meaning ----

  ghost predicate HasLeaf(mem: Memory, tables: Tables, a: Va)
    requires TablesOk(mem, tables)
  {
    LeafNode(a) in tables && Entry(mem, tables, LeafNode(a), a.page % ENTRIES).v
  }

  ghost function LeafAt(mem: Memory, tables: Tables, a: Va): Leaf
    requires TablesOk(mem, tables) && HasLeaf(mem, tables, a)
  {
    var e := Entry(mem, tables, LeafNode(a), a.page % ENTRIES);
    Leaf(e.frame, e.flags)
  }

  ghost function Covered(tables: Tables): set<Va> {
    set n, i: nat | n in tables && i < ENTRIES :: PageIn(n, i)
  }

  ghost function PtOf(mem: Memory, tables: Tables): (pt: map<Va, Leaf>)
    requires TablesOk(mem, tables)
    ensures forall a :: a in pt <==> HasLeaf(mem, tables, a)
    ensures forall a :: a in pt ==> pt[a] == LeafAt(mem, tables, a)
  {
    assert forall a :: HasLeaf(mem, tables, a) ==> a in Covered(tables) by {
      forall a | HasLeaf(mem, tables, a) ensures a in Covered(tables) {
        assert a == PageIn(LeafNode(a), a.page % ENTRIES);
      }
    }
    map a | a in Covered(tables) && HasLeaf(mem, tables, a) :: LeafAt(mem, tables, a)
  }

  lemma ChildParent(n: Node, i: nat)
    requires n.level > 0 && i < ENTRIES
    ensures n.Child(i).Parent() == n && n.Child(i).Slot() == i
  {
  }

  lemma ParentChild(n: Node)
    ensures n.Parent().Child(n.Slot()) == n
  {
  }

  // ---- storing one entry ----

  function WithEntry(mem: Memory, f: nat, i: nat, e: Pte): Memory
    requires f < |mem| && mem[f].Table? && i < ENTRIES
  {
    mem[f := Table(mem[f].t[i := e])]
  }

  ghost predicate TreeOk(mem: Memory, tables: Tables, dangling: set<Node>) {
    TablesOk(mem, tables) && Linked(mem, tables, dangling) && Rooted(mem, tables)
  }

  lemma EntryAfter(mem: Memory, tables: Tables, n: Node, i: nat, e: Pte)
    requires TablesOk(mem, tables) && n in tables && i < ENTRIES
    ensures var mem' := WithEntry(mem, tables[n], i, e);
      && TablesOk(mem', tables)
      && forall m, j: nat :: m in tables && j < ENTRIES ==>
           Entry(mem', tables, m, j) == if m == n && j == i then e else Entry(mem, tables, m, j)
  {
  }

  /** Memory with the entry for page `a` stored. */
  ghost function StoreLeaf(mem: Memory, tables: Tables, a: Va, e: Pte): Memory
    requires TablesOk(mem, tables) && LeafNode(a) in tables
  {
    WithEntry(mem, tables[LeafNode(a)], a.page % ENTRIES, e)
  }

  lemma SetLeafTree(mem: Memory, tables: Tables, dangling: set<Node>, a: Va, e: Pte)
    requires TreeOk(mem, tables, dangling) && LeafNode(a) in tables
    ensures TreeOk(StoreLeaf(mem, tables, a, e), tables, dangling)
  {
    EntryAfter(mem, tables, LeafNode(a), a.page % ENTRIES, e);
    hide WithEntry, StoreLeaf, Hung, Entry;
  }

  lemma SamePage(a: Va, b: Va)
    requires LeafNode(a) == LeafNode(b) && a.page % ENTRIES == b.page % ENTRIES
    ensures a == b
  {
  }

  /** `a` is mapped alike in both memories. */
  ghost predicate SameAt(mem: Memory, tables: Tables, mem': Memory, tables': Tables, a: Va)
    requires TablesOk(mem, tables) && TablesOk(mem', tables')
  {
    && HasLeaf(mem, tables, a) == HasLeaf(mem', tables', a)
    && (HasLeaf(mem, tables, a) ==> LeafAt(mem', tables', a) == LeafAt(mem, tables, a))
  }

  lemma SetLeafAway(mem: Memory, tables: Tables, a: Va, e: Pte, b: Va)
    requires TablesOk(mem, tables) && LeafNode(a) in tables && b != a
    ensures var mem' := StoreLeaf(mem, tables, a, e);
      TablesOk(mem', tables) && SameAt(mem, tables, mem', tables, b)
  {
    var n, i := LeafNode(a), a.page % ENTRIES;
    EntryAfter(mem, tables, n, i, e);
    hide WithEntry, StoreLeaf, Hung, Entry, TablesOk, LeafNode;
    if LeafNode(b) == n && b.page % ENTRIES == i { SamePage(a, b); }
  }

  lemma PtSame(mem: Memory, tables: Tables, mem': Memory, tables': Tables)
    requires TablesOk(mem, tables) && TablesOk(mem', tables')
    requires forall b :: SameAt(mem, tables, mem', tables', b)
    ensures PtOf(mem', tables') == PtOf(mem, tables)
  {
    hide TablesOk, PtOf, HasLeaf, LeafAt;
    var pt, pt' := PtOf(mem, tables), PtOf(mem', tables');
    forall b ensures b in pt' <==> b in pt { assert SameAt(mem, tables, mem', tables', b); }
    forall b | b in pt ensures pt'[b] == pt[b] { assert SameAt(mem, tables, mem', tables', b); }
  }

  lemma PtChanged(mem: Memory, tables: Tables, mem': Memory, a: Va, e: Pte)
    requires TablesOk(mem, tables) && TablesOk(mem', tables)
    requires forall b :: b != a ==> SameAt(mem, tables, mem', tables, b)
    requires HasLeaf(mem', tables, a) <==> e.v
    requires e.v ==> LeafAt(mem', tables, a) == Leaf(e.frame, e.flags)
    ensures PtOf(mem', tables) == if e.v then PtOf(mem, tables)[a := Leaf(e.frame, e.flags)] else PtOf(mem, tables) - {a}
  {
    hide TablesOk, PtOf, HasLeaf, LeafAt;
    var pt, pt' := PtOf(mem, tables), PtOf(mem', tables);
    forall b | b != a ensures b in pt' <==> b in pt { assert SameAt(mem, tables, mem', tables, b); }
    forall b | b != a && b in pt ensures pt'[b] == pt[b] { assert SameAt(mem, tables, mem', tables, b); }
  }

  /** A leaf entry is stored: the map changes at that page and nowhere else. */
  lemma SetLeafPt(mem: Memory, tables: Tables, a: Va, e: Pte)
    requires TablesOk(mem, tables) && LeafNode(a) in tables
    ensures TablesOk(StoreLeaf(mem, tables, a, e), tables)
    ensures PtOf(StoreLeaf(mem, tables, a, e), tables) ==
      if e.v then PtOf(mem, tables)[a := Leaf(e.frame, e.flags)] else PtOf(mem, tables) - {a}
  {
    var mem' := StoreLeaf(mem, tables, a, e);
    EntryAfter(mem, tables, LeafNode(a), a.page % ENTRIES, e);
    assert HasLeaf(mem', tables, a) <==> e.v;
    assert e.v ==> LeafAt(mem', tables, a) == Leaf(e.frame, e.flags);
    hide *;
    forall b | b != a ensures SameAt(mem, tables, mem', tables, b) { SetLeafAway(mem, tables, a, e, b); }
    PtChanged(mem, tables, mem', a, e);
  }

  lemma SetLeafOk(mem: Memory, tables: Tables, data: set<nat>, a: Va, e: Pte)
    requires TablesOk(mem, tables) && LeavesOk(mem, tables, data) && LeafNode(a) in tables
    requires e.v ==> e.frame in data && (e.flags.r || e.flags.w || e.flags.x)
    ensures TablesOk(StoreLeaf(mem, tables, a, e), tables)
    ensures LeavesOk(StoreLeaf(mem, tables, a, e), tables, data)
  {
    EntryAfter(mem, tables, LeafNode(a), a.page % ENTRIES, e);
    hide WithEntry, StoreLeaf, Hung, Entry;
  }

  // ---- a new table ----

  /** Where an entry is not valid there is no table below it. */
  lemma NoChild(mem: Memory, tables: Tables, dangling: set<Node>, n: Node, i: nat)
    requires TreeOk(mem, tables, dangling) && n in tables && n.level > 0 && i < ENTRIES
    requires !Entry(mem, tables, n, i).v
    ensures n.Child(i) !in tables
  {
    ChildParent(n, i);
  }

  /** Memory with frame `f` zeroed and hung, as a table, from entry `i` of the table in frame `t`. */
  function Hung(mem: Memory, t: nat, i: nat, f: nat): Memory
    requires t < |mem| && f < |mem| && t != f && mem[t].Table? && i < ENTRIES
  {
    WithEntry(mem[f := Table(Zeroed())], t, i, Pte(true, f, NOFLAGS))
  }

  ghost predicate IsTable(tables: Tables, f: nat) {
    exists n :: n in tables && tables[n] == f
  }

  lemma NewTableEntries(mem: Memory, tables: Tables, n: Node, i: nat, f: nat)
    requires TreeOk(mem, tables, {}) && n in tables && 0 < n.level && i < ENTRIES
    requires !Entry(mem, tables, n, i).v && f < |mem| && !IsTable(tables, f)
    ensures var mem' := Hung(mem, tables[n], i, f);
      var tables' := tables[n.Child(i) := f];
      && TablesOk(mem', tables')
      && (forall j: nat :: j < ENTRIES ==> Entry(mem', tables', n.Child(i), j) == EMPTY)
      && (forall m, j: nat :: m in tables && j < ENTRIES ==>
           Entry(mem', tables', m, j) == if m == n && j == i then Pte(true, f, NOFLAGS) else Entry(mem, tables, m, j))
  {
    NoChild(mem, tables, {}, n, i);
  }

  lemma NewTableAt(mem: Memory, tables: Tables, n: Node, i: nat, f: nat, b: Va)
    requires TreeOk(mem, tables, {}) && n in tables && 0 < n.level && i < ENTRIES
    requires !Entry(mem, tables, n, i).v && f < |mem| && !IsTable(tables, f)
    ensures var mem' := Hung(mem, tables[n], i, f);
      var tables' := tables[n.Child(i) := f];
      && TablesOk(mem', tables') && SameAt(mem, tables, mem', tables', b)
  {
    assert TablesOk(mem, tables);
    hide WithEntry, StoreLeaf, Hung, Entry, TablesOk, TreeOk;
    NoChild(mem, tables, {}, n, i);
    NewTableEntries(mem, tables, n, i, f);
  }

  /** A zeroed table hung from an invalid entry changes no mapping. */
  lemma NewTablePt(mem: Memory, tables: Tables, n: Node, i: nat, f: nat)
    requires TreeOk(mem, tables, {}) && n in tables && 0 < n.level && i < ENTRIES
    requires !Entry(mem, tables, n, i).v && f < |mem| && !IsTable(tables, f)
    ensures var mem' := Hung(mem, tables[n], i, f);
      var tables' := tables[n.Child(i) := f];
      && TablesOk(mem', tables') && PtOf(mem', tables') == PtOf(mem, tables)
  {
    NewTableEntries(mem, tables, n, i, f);
    var mem' := Hung(mem, tables[n], i, f);
    var tables' := tables[n.Child(i) := f];
    hide *;
    forall b ensures SameAt(mem, tables, mem', tables', b) { NewTableAt(mem, tables, n, i, f, b); }
    PtSame(mem, tables, mem', tables');
  }

  lemma NewTableLinked(mem: Memory, tables: Tables, n: Node, i: nat, f: nat)
    requires TreeOk(mem, tables, {}) && n in tables && 0 < n.level && i < ENTRIES
    requires !Entry(mem, tables, n, i).v && f < |mem| && !IsTable(tables, f)
    ensures TablesOk(Hung(mem, tables[n], i, f), tables[n.Child(i) := f])
    ensures Linked(Hung(mem, tables[n], i, f), tables[n.Child(i) := f], {})
  {
    var mem', tables' := Hung(mem, tables[n], i, f), tables[n.Child(i) := f];
    NoChild(mem, tables, {}, n, i);
    NewTableEntries(mem, tables, n, i, f);
    hide WithEntry, Hung, Entry, TablesOk, Rooted;
    forall m, j: nat | m in tables' && m.level > 0 && j < ENTRIES && Entry(mem', tables', m, j).v
      ensures m.Child(j) in tables' && tables'[m.Child(j)] == Entry(mem', tables', m, j).frame
    {
      assert m in tables;
      ChildParent(m, j);
      ChildParent(n, i);
    }
  }

  lemma NewTableRooted(mem: Memory, tables: Tables, n: Node, i: nat, f: nat)
    requires TreeOk(mem, tables, {}) && n in tables && 0 < n.level && i < ENTRIES
    requires !Entry(mem, tables, n, i).v && f < |mem| && !IsTable(tables, f)
    ensures TablesOk(Hung(mem, tables[n], i, f), tables[n.Child(i) := f])
    ensures Rooted(Hung(mem, tables[n], i, f), tables[n.Child(i) := f])
  {
    assert TablesOk(mem, tables) && Rooted(mem, tables);
    hide WithEntry, StoreLeaf, Hung, Entry, TablesOk, TreeOk;
    NoChild(mem, tables, {}, n, i);
    NewTableEntries(mem, tables, n, i, f);
    ChildParent(n, i);
  }

  lemma NewTableLeaves(mem: Memory, tables: Tables, n: Node, i: nat, f: nat, data: set<nat>)
    requires TreeOk(mem, tables, {}) && n in tables && 0 < n.level && i < ENTRIES && LeavesOk(mem, tables, data)
    requires !Entry(mem, tables, n, i).v && f < |mem| && !IsTable(tables, f)
    ensures var mem' := Hung(mem, tables[n], i, f);
      TablesOk(mem', tables[n.Child(i) := f]) && LeavesOk(mem', tables[n.Child(i) := f], data)
  {
    NoChild(mem, tables, {}, n, i);
    NewTableEntries(mem, tables, n, i, f);
    hide WithEntry, StoreLeaf, Hung, Entry, TablesOk;
  }

  // ---- addresses ----

  /** `PX(level, va)`: the index into the table at `level`, nine bits of the address. */
  function PX(level: nat, va: nat): nat
    requires level <= 2
  {
    (va / (if level == 0 then 0x1000 else if level == 1 then 0x20_0000 else 0x4000_0000)) % ENTRIES
  }

  /** The page number without its last `level + 1` nine-bit digits. */
  function Prefix(level: nat, page: nat): nat
    requires level <= 2
  {
    if level == 0 then page / ENTRIES
    else if level == 1 then page / ENTRIES / ENTRIES
    else page / ENTRIES / ENTRIES / ENTRIES
  }

  /** The table at `level` on the way to a page. */
  function PathNode(root: nat, level: nat, page: nat): Node
    requires level <= 2
  {
    Node(root, level, Prefix(level, page))
  }

  /** The index `walk` uses at each level leads to the next table on the way. */
  lemma PathChild(root: nat, level: nat, va: nat)
    requires 0 < level <= 2
    ensures PathNode(root, level, va / PGSIZE).Child(PX(level, va)) == PathNode(root, level - 1, va / PGSIZE)
  {
    assert va / 0x20_0000 == va / 0x1000 / 0x200;
    assert va / 0x4000_0000 == va / 0x1000 / 0x200 / 0x200;
  }

  lemma PathEnds(root: nat, va: nat)
    ensures va / PGSIZE < MAXPAGES ==> PathNode(root, 2, va / PGSIZE) == Root(root)
    ensures PathNode(root, 0, va / PGSIZE) == LeafNode(Va(root, va / PGSIZE))
    ensures PX(0, va) == va / PGSIZE % ENTRIES
  {
  }

  /** All the tables on the way to a table exist. */
  lemma PathAbove(mem: Memory, tables: Tables, root: nat, level: nat, page: nat)
    requires TreeOk(mem, tables, {}) && 0 < level <= 2 && PathNode(root, level - 1, page) in tables
    ensures PathNode(root, level, page) in tables
  {
  }

  // ---- frames that hold no table ----

  lemma OtherFrame(mem: Memory, tables: Tables, f: nat, c: Content, dangling: set<Node>)
    requires TreeOk(mem, tables, dangling) && f < |mem| && !IsTable(tables, f)
    ensures TreeOk(mem[f := c], tables, dangling)
    ensures PtOf(mem[f := c], tables) == PtOf(mem, tables)
    ensures forall data :: LeavesOk(mem, tables, data) ==> LeavesOk(mem[f := c], tables, data)
  {
    var mem' := mem[f := c];
    assert forall n :: n in tables ==> mem'[tables[n]] == mem[tables[n]];
    assert TablesOk(mem', tables);
    assert forall n, i: nat :: n in tables && i < ENTRIES ==> Entry(mem', tables, n, i) == Entry(mem, tables, n, i);
    forall b ensures SameAt(mem, tables, mem', tables, b) { }
    hide TablesOk, PtOf, HasLeaf, LeafAt, Entry;
    PtSame(mem, tables, mem', tables);
  }

  /** A valid entry of a lowest table maps the page it stands for. */
  lemma LeafMapped(mem: Memory, tables: Tables, n: Node, i: nat)
    requires TablesOk(mem, tables) && n in tables && n.level == 0 && i < ENTRIES && Entry(mem, tables, n, i).v
    ensures PageIn(n, i) in PtOf(mem, tables) && PtOf(mem, tables)[PageIn(n, i)].frame == Entry(mem, tables, n, i).frame
  {
    var a := PageIn(n, i);
    assert LeafNode(a) == n && a.page % ENTRIES == i;
    assert HasLeaf(mem, tables, a);
  }

  /** A data frame that no leaf maps can be given up. */
  lemma LeavesWithout(mem: Memory, tables: Tables, data: set<nat>, f: nat)
    requires TreeOk(mem, tables, {}) && LeavesOk(mem, tables, data) && Mappers(PtOf(mem, tables), f) == {}
    ensures LeavesOk(mem, tables, data - {f})
  {
    hide PtOf, Linked, Rooted, Entry;
    forall n, i: nat | n in tables && n.level == 0 && i < ENTRIES && Entry(mem, tables, n, i).v
      ensures Entry(mem, tables, n, i).frame != f
    {
      LeafMapped(mem, tables, n, i);
      assert PageIn(n, i) !in Mappers(PtOf(mem, tables), f);
    }
  }
}
