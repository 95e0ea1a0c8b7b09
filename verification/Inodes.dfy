/**
 Who owns which block. A slot of an inode is one of its direct addresses, its indirect pointer or an
 entry of its indirect block; `owner` maps each data block in use to the one slot that names it.
 */
module Inodes {
  import opened DiskLayout

  const SLOTS := NDIRECT + 1 + NINDIRECT

  datatype Slot = Slot(j: nat, i: nat)

  /** `nodes` are the inodes as the kernel has them, which may be ahead of the disk. */
  datatype Fsys = Fsys(sb: Superblock, disk: Disk, nodes: seq<Dinode>, owner: map<nat, Slot>)

  predicate Shaped(t: Fsys) {
    t.sb.Ok() && |t.disk| == t.sb.size && |t.nodes| == t.sb.ninodes && forall j :: 0 <= j < |t.nodes| ==> t.nodes[j].Ok()
  }

  /** Whether the bitmap marks block `b` as in use. */
  predicate BitAt(disk: Disk, sb: Superblock, b: nat)
    requires sb.Ok() && |disk| == sb.size && b < sb.size
  {
    Bit(disk[BBlock(b, sb)], b % BPB)
  }

  /** Inode `j` as it is on disk. */
  function NodeAt(disk: Disk, sb: Superblock, j: nat): Dinode
    requires sb.Ok() && |disk| == sb.size && j < sb.ninodes
  {
    GetDinode(disk[IBlock(j, sb)], j % IPB)
  }

  /** The block that a slot names, or zero. */
  function Value(t: Fsys, j: nat, i: nat): nat
    requires Shaped(t) && j < |t.nodes| && i < SLOTS
  {
    var a := t.nodes[j].addrs;
    if i <= NDIRECT then a[i]
    else if a[NDIRECT] == 0 || a[NDIRECT] >= |t.disk| then 0
    else Word(t.disk[a[NDIRECT]], i - NDIRECT - 1)
  }

  /** The slot for block `bn` of a file. */
  function Index(bn: nat): (i: nat)
    ensures i != NDIRECT && (bn < MAXFILE ==> i < SLOTS)
  {
    if bn < NDIRECT then bn else bn + 1
  }

  /** The contents of block `bn` of a file; a block that is not there reads as zeroes. */
  function DataOf(t: Fsys, j: nat, bn: nat): Block
    requires Shaped(t) && j < |t.nodes| && bn < MAXFILE
  {
    var b := Value(t, j, Index(bn));
    if b == 0 || b >= |t.disk| then Zero() else t.disk[b]
  }

  // ---- the invariant ----

  ghost predicate Named(t: Fsys)
    requires Shaped(t)
  {
    forall j: nat, i: nat :: j < |t.nodes| && i < SLOTS && Value(t, j, i) != 0 ==>
      Value(t, j, i) in t.owner && t.owner[Value(t, j, i)] == Slot(j, i)
  }

  ghost predicate OwnersName(t: Fsys)
    requires Shaped(t)
  {
    forall b :: b in t.owner ==>
      && t.sb.DataStart() <= b < t.sb.size
      && t.owner[b].j < |t.nodes| && t.owner[b].i < SLOTS && Value(t, t.owner[b].j, t.owner[b].i) == b
  }

  /** A data block is marked exactly when a slot names it, or when it is on its way in or out. */
  ghost predicate Marked(t: Fsys, loose: set<nat>)
    requires Shaped(t)
  {
    forall b: nat :: b < t.sb.size ==> (BitAt(t.disk, t.sb, b) <==> b < t.sb.DataStart() || b in t.owner || b in loose)
  }

  /** The blocks below a file's size are all there. */
  ghost predicate Complete(t: Fsys)
    requires Shaped(t)
  {
    && (forall j :: 0 <= j < |t.nodes| ==> t.nodes[j].size <= MAXFILE * BSIZE)
    && forall j: nat, bn: nat :: j < |t.nodes| && bn < MAXFILE && bn * BSIZE < t.nodes[j].size ==> Value(t, j, Index(bn)) != 0
  }

  predicate Empty(d: Dinode) {
    d.size == 0 && forall i :: 0 <= i < |d.addrs| ==> d.addrs[i] == 0
  }

  /** An inode that is not in use holds nothing. */
  ghost predicate FreeEmpty(t: Fsys)
    requires Shaped(t)
  {
    forall j :: 0 <= j < |t.nodes| && t.nodes[j].kind == 0 ==> Empty(t.nodes[j])
  }

  /** Every inode but those of `ahead` is on disk as the kernel has it. */
  ghost predicate Saved(t: Fsys, ahead: set<nat>)
    requires Shaped(t)
  {
    forall j: nat :: j < |t.nodes| && j !in ahead ==> NodeAt(t.disk, t.sb, j) == t.nodes[j]
  }

  /** What concerns the slots alone. */
  ghost predicate Tree(t: Fsys)
    requires Shaped(t)
  {
    Named(t) && OwnersName(t) && Complete(t) && FreeEmpty(t)
  }

  ghost predicate Loose(t: Fsys, loose: set<nat>) {
    forall b :: b in loose ==> t.sb.DataStart() <= b < t.sb.size && b !in t.owner
  }

  ghost predicate Inv(t: Fsys, ahead: set<nat>, loose: set<nat>) {
    Shaped(t) && Tree(t) && Marked(t, loose) && Saved(t, ahead) && Loose(t, loose)
  }

  // ---- writing one block ----

  function Put(t: Fsys, b: nat, blk: Block): Fsys
    requires b < |t.disk|
  {
    t.(disk := t.disk[b := blk])
  }

  ghost predicate SameBits(t: Fsys, u: Fsys)
    requires Shaped(t) && Shaped(u)
  {
    u.sb == t.sb && forall b: nat :: b < t.sb.size ==> BitAt(u.disk, u.sb, b) == BitAt(t.disk, t.sb, b)
  }

  ghost predicate SameDinodes(t: Fsys, u: Fsys)
    requires Shaped(t) && Shaped(u)
  {
    u.sb == t.sb && forall j: nat :: j < t.sb.ninodes ==> NodeAt(u.disk, u.sb, j) == NodeAt(t.disk, t.sb, j)
  }

  ghost predicate SameSlots(t: Fsys, u: Fsys)
    requires Shaped(t) && Shaped(u)
  {
    |u.nodes| == |t.nodes| && forall j: nat, i: nat :: j < |t.nodes| && i < SLOTS ==> Value(u, j, i) == Value(t, j, i)
  }

  ghost predicate SameData(t: Fsys, u: Fsys)
    requires Shaped(t) && Shaped(u)
  {
    |u.nodes| == |t.nodes| && forall j: nat, bn: nat :: j < |t.nodes| && bn < MAXFILE ==> DataOf(u, j, bn) == DataOf(t, j, bn)
  }

  /** The three regions do not overlap. */
  lemma Regions(sb: Superblock, b: nat, j: nat)
    requires sb.Ok() && b < sb.size && j < sb.ninodes
    ensures IBlock(j, sb) < sb.bmapstart <= BBlock(b, sb) < sb.DataStart() <= sb.size
  {
  }

  lemma PutData(t: Fsys, b: nat, blk: Block)
    requires Shaped(t) && t.sb.DataStart() <= b < t.sb.size
    ensures Shaped(Put(t, b, blk)) && SameBits(t, Put(t, b, blk)) && SameDinodes(t, Put(t, b, blk))
  {
    forall x: nat | x < t.sb.size ensures BBlock(x, t.sb) < t.sb.DataStart() { }
    forall j: nat | j < t.sb.ninodes ensures IBlock(j, t.sb) < t.sb.DataStart() { Regions(t.sb, 0, j); }
    hide GetDinode, Bit;
  }

  /** The bit for block `b` set or cleared. */
  function PutBitAt(t: Fsys, b: nat, on: bool): Fsys
    requires Shaped(t) && b < t.sb.size
  {
    Put(t, BBlock(b, t.sb), PutBit(t.disk[BBlock(b, t.sb)], b % BPB, on))
  }

  lemma PutBitOk(t: Fsys, b: nat, on: bool)
    requires Shaped(t) && b < t.sb.size
    ensures Shaped(PutBitAt(t, b, on)) && SameDinodes(t, PutBitAt(t, b, on))
    ensures forall x: nat :: x < t.sb.size ==>
      BitAt(PutBitAt(t, b, on).disk, t.sb, x) == if x == b then on else BitAt(t.disk, t.sb, x)
    ensures forall x: nat :: t.sb.DataStart() <= x < t.sb.size ==> PutBitAt(t, b, on).disk[x] == t.disk[x]
  {
    var u := PutBitAt(t, b, on);
    forall x: nat | x < t.sb.size ensures BitAt(u.disk, t.sb, x) == if x == b then on else BitAt(t.disk, t.sb, x) {
      BitAfter(t.disk[BBlock(b, t.sb)], b % BPB, on, x % BPB);
    }
    forall j: nat | j < t.sb.ninodes ensures IBlock(j, t.sb) < BBlock(b, t.sb) { Regions(t.sb, b, j); }
    hide GetDinode, Bit, PutBit;
  }

  /** Inode `j` written to disk. */
  function PutNodeAt(t: Fsys, j: nat, d: Dinode): Fsys
    requires Shaped(t) && j < |t.nodes| && d.Ok()
  {
    Regions(t.sb, 0, j);
    Put(t, IBlock(j, t.sb), PutDinode(t.disk[IBlock(j, t.sb)], j % IPB, d))
  }

  lemma PutNodeOk(t: Fsys, j: nat, d: Dinode)
    requires Shaped(t) && j < |t.nodes| && d.Ok()
    ensures Shaped(PutNodeAt(t, j, d)) && SameBits(t, PutNodeAt(t, j, d))
    ensures forall k: nat :: k < |t.nodes| ==>
      NodeAt(PutNodeAt(t, j, d).disk, t.sb, k) == if k == j then d else NodeAt(t.disk, t.sb, k)
    ensures forall x: nat :: t.sb.DataStart() <= x < t.sb.size ==> PutNodeAt(t, j, d).disk[x] == t.disk[x]
  {
    hide GetDinode, Bit, PutDinode;
    var u := PutNodeAt(t, j, d);
    forall k: nat | k < |t.nodes| ensures NodeAt(u.disk, t.sb, k) == if k == j then d else NodeAt(t.disk, t.sb, k) {
      PutNodeKeeps(t, j, d, k);
    }
    forall x: nat | x < t.sb.size ensures IBlock(j, t.sb) < BBlock(x, t.sb) { Regions(t.sb, x, j); }
    hide NodeAt, PutNodeAt;
  }

  lemma PutNodeKeeps(t: Fsys, j: nat, d: Dinode, k: nat)
    requires Shaped(t) && j < |t.nodes| && k < |t.nodes| && d.Ok()
    ensures NodeAt(PutNodeAt(t, j, d).disk, t.sb, k) == if k == j then d else NodeAt(t.disk, t.sb, k)
  {
    hide GetDinode, PutDinode;
    Regions(t.sb, 0, k);
    DinodeAfter(t.disk[IBlock(j, t.sb)], j % IPB, d, k % IPB);
  }

  // ---- blocks coming and going ----

  /** Slots and files depend only on the inodes and on the blocks in use. */
  lemma OwnedKept(t: Fsys, u: Fsys)
    requires Shaped(t) && Shaped(u) && Named(t) && OwnersName(t) && u.nodes == t.nodes && u.sb == t.sb
    requires forall b :: b in t.owner && b < |t.disk| ==> u.disk[b] == t.disk[b]
    ensures SameSlots(t, u) && SameData(t, u)
  {
    forall j: nat, i: nat | j < |t.nodes| && i < SLOTS ensures Value(u, j, i) == Value(t, j, i) {
      assert Value(t, j, NDIRECT) == t.nodes[j].addrs[NDIRECT];
    }
    hide Word;
  }

  lemma TreeKept(t: Fsys, u: Fsys)
    requires Shaped(t) && Shaped(u) && Tree(t) && u.nodes == t.nodes && u.owner == t.owner && u.sb == t.sb && SameSlots(t, u)
    ensures Tree(u)
  {
    hide Value;
  }

  lemma InvKept(t: Fsys, u: Fsys, ahead: set<nat>, loose: set<nat>)
    requires Inv(t, ahead, loose) && Shaped(u) && u.nodes == t.nodes && u.owner == t.owner
    requires SameSlots(t, u) && SameDinodes(t, u) && SameBits(t, u)
    ensures Inv(u, ahead, loose)
  {
    TreeKept(t, u);
    hide SameSlots, Tree, BitAt, NodeAt;
  }

  /** `balloc` marks a block. */
  lemma MarkOk(t: Fsys, b: nat, ahead: set<nat>)
    requires Inv(t, ahead, {}) && b < t.sb.size && !BitAt(t.disk, t.sb, b)
    ensures Inv(PutBitAt(t, b, true), ahead, {b})
    ensures SameSlots(t, PutBitAt(t, b, true)) && SameData(t, PutBitAt(t, b, true))
  {
    hide SameSlots, SameData, BitAt, NodeAt;
    PutBitOk(t, b, true);
    OwnedKept(t, PutBitAt(t, b, true));
    TreeKept(t, PutBitAt(t, b, true));
  }

  /** A block that no slot names may be overwritten. */
  lemma LooseWrite(t: Fsys, b: nat, blk: Block, ahead: set<nat>, loose: set<nat>)
    requires Inv(t, ahead, loose) && b in loose
    ensures Inv(Put(t, b, blk), ahead, loose)
    ensures SameSlots(t, Put(t, b, blk)) && SameData(t, Put(t, b, blk))
  {
    PutData(t, b, blk);
    OwnedKept(t, Put(t, b, blk));
    InvKept(t, Put(t, b, blk), ahead, loose);
    hide *;
  }

  /** `bfree` clears the mark of a block that no slot names any more. */
  lemma UnmarkOk(t: Fsys, b: nat, ahead: set<nat>, loose: set<nat>)
    requires Inv(t, ahead, loose) && b in loose
    ensures Inv(PutBitAt(t, b, false), ahead, loose - {b})
    ensures SameSlots(t, PutBitAt(t, b, false)) && SameData(t, PutBitAt(t, b, false))
  {
    hide SameSlots, SameData, BitAt, NodeAt;
    PutBitOk(t, b, false);
    OwnedKept(t, PutBitAt(t, b, false));
    TreeKept(t, PutBitAt(t, b, false));
  }

  /** Writing an inode to disk changes nothing else, and brings the disk up to date with it. */
  lemma SaveOk(t: Fsys, j: nat, ahead: set<nat>, loose: set<nat>)
    requires Inv(t, ahead, loose) && j < |t.nodes|
    ensures Inv(PutNodeAt(t, j, t.nodes[j]), ahead - {j}, loose)
    ensures SameSlots(t, PutNodeAt(t, j, t.nodes[j])) && SameData(t, PutNodeAt(t, j, t.nodes[j]))
  {
    hide SameSlots, SameData, BitAt, NodeAt;
    PutNodeOk(t, j, t.nodes[j]);
    OwnedKept(t, PutNodeAt(t, j, t.nodes[j]));
    TreeKept(t, PutNodeAt(t, j, t.nodes[j]));
  }

  /** A block of a file is no indirect block. */
  lemma DataSlots(t: Fsys, b: nat, blk: Block)
    requires Shaped(t) && Named(t) && b in t.owner && b < |t.disk| && t.owner[b].i != NDIRECT
    ensures SameSlots(t, Put(t, b, blk))
  {
    var u := Put(t, b, blk);
    forall k: nat, i: nat | k < |t.nodes| && i < SLOTS ensures Value(u, k, i) == Value(t, k, i) {
      assert Value(t, k, NDIRECT) == t.nodes[k].addrs[NDIRECT];
    }
    hide Word;
  }

  lemma DataAfter(t: Fsys, j: nat, bn: nat, blk: Block, k: nat, n: nat)
    requires Shaped(t) && Named(t) && OwnersName(t) && j < |t.nodes| && bn < MAXFILE && k < |t.nodes| && n < MAXFILE
    requires var b := Value(t, j, Index(bn)); 0 < b < |t.disk| && SameSlots(t, Put(t, b, blk))
    ensures DataOf(Put(t, Value(t, j, Index(bn)), blk), k, n) == if k == j && n == bn then blk else DataOf(t, k, n)
  {
    var b := Value(t, j, Index(bn));
    assert Value(t, k, Index(n)) == b ==> Slot(k, Index(n)) == Slot(j, Index(bn));
    hide Value;
  }

  /** Writing a block of a file changes that block of that file, and no other. */
  lemma WriteOk(t: Fsys, j: nat, bn: nat, blk: Block, ahead: set<nat>)
    requires Inv(t, ahead, {}) && j < |t.nodes| && bn < MAXFILE && Value(t, j, Index(bn)) != 0
    ensures var b := Value(t, j, Index(bn));
      && b < |t.disk| && Inv(Put(t, b, blk), ahead, {}) && SameSlots(t, Put(t, b, blk))
      && forall k: nat, n: nat :: k < |t.nodes| && n < MAXFILE ==>
           DataOf(Put(t, b, blk), k, n) == if k == j && n == bn then blk else DataOf(t, k, n)
  {
    var b := Value(t, j, Index(bn));
    assert t.owner[b] == Slot(j, Index(bn));
    PutData(t, b, blk);
    DataSlots(t, b, blk);
    InvKept(t, Put(t, b, blk), ahead, {});
    forall k: nat, n: nat | k < |t.nodes| && n < MAXFILE
      ensures DataOf(Put(t, b, blk), k, n) == if k == j && n == bn then blk else DataOf(t, k, n) { DataAfter(t, j, bn, blk, k, n); }
    hide *;
  }

  // ---- slots filled ----

  function WithAddr(t: Fsys, j: nat, i: nat, b: nat): Fsys
    requires Shaped(t) && j < |t.nodes| && i <= NDIRECT
  {
    t.(nodes := t.nodes[j := t.nodes[j].(addrs := t.nodes[j].addrs[i := b])])
  }

  /** A loose block put in a direct or indirect-pointer slot. */
  ghost function Attach(t: Fsys, j: nat, i: nat, b: nat): Fsys
    requires Shaped(t) && j < |t.nodes| && i <= NDIRECT
  {
    WithAddr(t, j, i, b).(owner := t.owner[b := Slot(j, i)])
  }

  /** A loose block put in an entry of an indirect block. */
  ghost function AttachEntry(t: Fsys, j: nat, n: nat, b: nat): Fsys
    requires Shaped(t) && j < |t.nodes| && n < NINDIRECT && t.nodes[j].addrs[NDIRECT] < |t.disk|
  {
    var x := t.nodes[j].addrs[NDIRECT];
    Put(t, x, PutWords(t.disk[x], n, [b])).(owner := t.owner[b := Slot(j, NDIRECT + 1 + n)])
  }

  /** `u` is `t` with slot (j, i), which was empty, naming block `b`. */
  ghost predicate Filled(t: Fsys, u: Fsys, j: nat, i: nat, b: nat)
    requires Shaped(t) && Shaped(u)
  {
    && |u.nodes| == |t.nodes| && u.sb == t.sb && u.owner == t.owner[b := Slot(j, i)] && b > 0
    && (forall k :: 0 <= k < |t.nodes| ==> u.nodes[k] == t.nodes[k].(addrs := u.nodes[k].addrs))
    && (forall k :: 0 <= k < |t.nodes| && k != j ==> u.nodes[k] == t.nodes[k])
    && (forall k: nat, n: nat :: k < |t.nodes| && n < SLOTS ==> Value(u, k, n) == if k == j && n == i then b else Value(t, k, n))
  }

  lemma FilledTree(t: Fsys, u: Fsys, j: nat, i: nat, b: nat)
    requires Shaped(t) && Shaped(u) && Tree(t) && Filled(t, u, j, i, b) && j < |t.nodes| && i < SLOTS && Value(t, j, i) == 0
    requires t.sb.DataStart() <= b < t.sb.size && b !in t.owner && t.nodes[j].kind != 0
    ensures Tree(u)
  {
    hide Value;
  }

  lemma FilledData(t: Fsys, u: Fsys, j: nat, i: nat, b: nat)
    requires Shaped(t) && Shaped(u) && Tree(t) && Filled(t, u, j, i, b) && j < |t.nodes| && i < SLOTS && Value(t, j, i) == 0
    requires b < |u.disk| && u.disk[b] == Zero()
    requires forall x :: x in t.owner && x < |t.disk| && t.owner[x].i != NDIRECT ==> u.disk[x] == t.disk[x]
    ensures SameData(t, u)
  {
    hide Value, Zero;
    forall k: nat, n: nat | k < |t.nodes| && n < MAXFILE ensures DataOf(u, k, n) == DataOf(t, k, n) {
      assert Value(u, k, Index(n)) == if k == j && Index(n) == i then b else Value(t, k, Index(n));
    }
  }

  lemma AttachFills(t: Fsys, j: nat, i: nat, b: nat)
    requires Shaped(t) && j < |t.nodes| && i <= NDIRECT && t.nodes[j].addrs[i] == 0
    requires 0 < b < |t.disk| && (i == NDIRECT ==> t.disk[b] == Zero())
    ensures Shaped(Attach(t, j, i, b)) && Filled(t, Attach(t, j, i, b), j, i, b)
  {
    var u := Attach(t, j, i, b);
    forall k: nat, n: nat | k < |t.nodes| && n < SLOTS ensures Value(u, k, n) == if k == j && n == i then b else Value(t, k, n) {
      if n > NDIRECT { ZeroWord(n - NDIRECT - 1); }
    }
    hide Word, Zero;
  }

  lemma FilledInv(t: Fsys, u: Fsys, j: nat, i: nat, b: nat, ahead: set<nat>)
    requires Inv(t, ahead, {b}) && Shaped(u) && Filled(t, u, j, i, b) && SameBits(t, u) && SameDinodes(t, u)
    requires j < |t.nodes| && i < SLOTS && Value(t, j, i) == 0 && t.nodes[j].kind != 0 && (j in ahead || u.nodes == t.nodes)
    ensures Inv(u, ahead, {})
  {
    hide BitAt, NodeAt, Value;
    assert b in {b};
    FilledTree(t, u, j, i, b);
    hide Tree;
  }

  lemma AttachOk(t: Fsys, j: nat, i: nat, b: nat, ahead: set<nat>)
    requires Inv(t, ahead, {b}) && j < |t.nodes| && i <= NDIRECT && t.nodes[j].addrs[i] == 0 && t.nodes[j].kind != 0 && j in ahead
    requires t.sb.DataStart() <= b < t.sb.size && t.disk[b] == Zero()
    ensures var u := Attach(t, j, i, b); Inv(u, ahead, {}) && Filled(t, u, j, i, b) && SameData(t, u)
  {
    var u := Attach(t, j, i, b);
    AttachFills(t, j, i, b);
    assert Value(t, j, i) == 0;
    hide BitAt, NodeAt, Value, Filled;
    FilledInv(t, u, j, i, b, ahead);
    FilledData(t, u, j, i, b);
  }

  lemma EntryFills(t: Fsys, j: nat, n: nat, b: nat)
    requires Shaped(t) && Named(t) && j < |t.nodes| && n < NINDIRECT && 0 < t.nodes[j].addrs[NDIRECT] < |t.disk|
    requires 0 < b < |t.disk|
    ensures Shaped(AttachEntry(t, j, n, b)) && Filled(t, AttachEntry(t, j, n, b), j, NDIRECT + 1 + n, b)
  {
    var u, x := AttachEntry(t, j, n, b), t.nodes[j].addrs[NDIRECT];
    assert Value(t, j, NDIRECT) == x;
    forall k: nat, m: nat | k < |t.nodes| && m < SLOTS
      ensures Value(u, k, m) == if k == j && m == NDIRECT + 1 + n then b else Value(t, k, m)
    {
      assert Value(t, k, NDIRECT) == t.nodes[k].addrs[NDIRECT];
      if m > NDIRECT { WordAfter(t.disk[x], n, [b], m - NDIRECT - 1); }
      hide PutWords, Word;
    }
  }

  lemma EntryFrame(t: Fsys, j: nat, n: nat, b: nat)
    requires Shaped(t) && Named(t) && OwnersName(t) && j < |t.nodes| && n < NINDIRECT
    requires t.nodes[j].addrs[NDIRECT] != 0 && t.sb.DataStart() <= b < t.sb.size && b !in t.owner
    ensures t.nodes[j].addrs[NDIRECT] < |t.disk|
    ensures var u := AttachEntry(t, j, n, b);
      && Shaped(u) && SameBits(t, u) && SameDinodes(t, u) && u.disk[b] == t.disk[b] && Filled(t, u, j, NDIRECT + 1 + n, b)
      && forall x :: x in t.owner && x < |t.disk| && t.owner[x].i != NDIRECT ==> u.disk[x] == t.disk[x]
  {
    var x := t.nodes[j].addrs[NDIRECT];
    assert Value(t, j, NDIRECT) == x;
    PutData(t, x, PutWords(t.disk[x], n, [b]));
    EntryFills(t, j, n, b);
    hide BitAt, NodeAt, Value, Filled, PutWords;
  }

  lemma AttachEntryOk(t: Fsys, j: nat, n: nat, b: nat, ahead: set<nat>)
    requires Inv(t, ahead, {b}) && j < |t.nodes| && n < NINDIRECT && t.nodes[j].addrs[NDIRECT] != 0 && t.nodes[j].kind != 0
    requires b < t.sb.size && t.disk[b] == Zero() && Value(t, j, NDIRECT + 1 + n) == 0
    ensures t.nodes[j].addrs[NDIRECT] < |t.disk|
    ensures var u := AttachEntry(t, j, n, b); Inv(u, ahead, {}) && Filled(t, u, j, NDIRECT + 1 + n, b) && SameData(t, u)
  {
    assert b in {b};
    EntryFrame(t, j, n, b);
    var u := AttachEntry(t, j, n, b);
    hide BitAt, NodeAt, Value, Filled, AttachEntry, Named, OwnersName, Complete, Marked, Saved;
    FilledInv(t, u, j, NDIRECT + 1 + n, b, ahead);
    FilledData(t, u, j, NDIRECT + 1 + n, b);
  }

  // ---- slots emptied ----

  /** `u` is `t` with every slot of inode `j` that named one of the blocks `gone` empty. */
  ghost predicate Drained(t: Fsys, u: Fsys, j: nat, gone: set<nat>)
    requires Shaped(t) && Shaped(u)
  {
    && |u.nodes| == |t.nodes| && u.sb == t.sb && u.disk == t.disk && u.owner == t.owner - gone
    && (forall b :: b in gone ==> b in t.owner && t.owner[b].j == j)
    && (forall k :: 0 <= k < |t.nodes| ==> u.nodes[k] == t.nodes[k].(addrs := u.nodes[k].addrs))
    && (forall k :: 0 <= k < |t.nodes| && k != j ==> u.nodes[k] == t.nodes[k])
    && (forall k: nat, n: nat :: k < |t.nodes| && n < SLOTS ==> Value(u, k, n) == if Value(t, k, n) in gone then 0 else Value(t, k, n))
  }

  lemma DrainedTree(t: Fsys, u: Fsys, j: nat, gone: set<nat>)
    requires Shaped(t) && Shaped(u) && Tree(t) && Drained(t, u, j, gone)
    requires j < |t.nodes| && t.nodes[j].size == 0 && t.nodes[j].kind != 0
    ensures Tree(u)
  {
    hide Value;
    forall k: nat, bn: nat | k < |t.nodes| && bn < MAXFILE && bn * BSIZE < u.nodes[k].size ensures Value(u, k, Index(bn)) != 0 {
      assert k != j && Value(t, k, Index(bn)) != 0;
    }
  }

  lemma DrainedInv(t: Fsys, u: Fsys, j: nat, gone: set<nat>, ahead: set<nat>, loose: set<nat>)
    requires Inv(t, ahead, loose) && Shaped(u) && Drained(t, u, j, gone)
    requires j < |t.nodes| && t.nodes[j].size == 0 && t.nodes[j].kind != 0 && j in ahead
    ensures Inv(u, ahead, loose + gone)
  {
    hide Value, BitAt, NodeAt;
    DrainedTree(t, u, j, gone);
    hide Named, Complete, FreeEmpty;
  }

  /** Other files do not notice. */
  lemma DrainedData(t: Fsys, u: Fsys, j: nat, gone: set<nat>, k: nat, bn: nat)
    requires Shaped(t) && Shaped(u) && Named(t) && Drained(t, u, j, gone) && k < |t.nodes| && k != j && bn < MAXFILE
    ensures DataOf(u, k, bn) == DataOf(t, k, bn)
  {
    hide Value, Zero;
    assert Value(u, k, Index(bn)) == if Value(t, k, Index(bn)) in gone then 0 else Value(t, k, Index(bn));
  }

  /** A direct slot emptied. */
  ghost function Detach(t: Fsys, j: nat, i: nat): Fsys
    requires Shaped(t) && j < |t.nodes| && i < NDIRECT
  {
    WithAddr(t, j, i, 0).(owner := t.owner - {t.nodes[j].addrs[i]})
  }

  lemma DetachOk(t: Fsys, j: nat, i: nat)
    requires Shaped(t) && Named(t) && j < |t.nodes| && i < NDIRECT && t.nodes[j].addrs[i] != 0
    ensures Shaped(Detach(t, j, i)) && Drained(t, Detach(t, j, i), j, {t.nodes[j].addrs[i]})
  {
    var u, b := Detach(t, j, i), t.nodes[j].addrs[i];
    assert Value(t, j, i) == b;
    forall k: nat, n: nat | k < |t.nodes| && n < SLOTS ensures Value(u, k, n) == if Value(t, k, n) == b then 0 else Value(t, k, n) {
      assert Value(t, k, n) == b ==> Slot(k, n) == Slot(j, i);
    }
    hide Word;
  }

  /** The nonzero words of an indirect block from word `n` on. */
  ghost function Entries(blk: Block, n: nat): set<nat>
    decreases NINDIRECT - n
  {
    if n >= NINDIRECT then {} else (if Word(blk, n) == 0 then {} else {Word(blk, n)}) + Entries(blk, n + 1)
  }

  lemma {:induction false} EntryIn(blk: Block, n: nat, m: nat)
    requires n <= m < NINDIRECT && Word(blk, m) != 0
    ensures Word(blk, m) in Entries(blk, n)
    decreases m - n
  {
    hide Word;
    if n < m { EntryIn(blk, n + 1, m); }
  }

  lemma {:induction false} EntryFrom(blk: Block, n: nat, b: nat) returns (m: nat)
    requires b in Entries(blk, n)
    ensures n <= m < NINDIRECT && Word(blk, m) == b != 0
    decreases NINDIRECT - n
  {
    hide Word;
    if b == Word(blk, n) != 0 { m := n; } else { m := EntryFrom(blk, n + 1, b); }
  }

  /** The indirect slot emptied, and with it all its entries. */
  ghost function DetachIndirect(t: Fsys, j: nat): Fsys
    requires Shaped(t) && j < |t.nodes| && t.nodes[j].addrs[NDIRECT] < |t.disk|
  {
    var x := t.nodes[j].addrs[NDIRECT];
    WithAddr(t, j, NDIRECT, 0).(owner := t.owner - ({x} + Entries(t.disk[x], 0)))
  }

  lemma EntryOwned(t: Fsys, j: nat, n: nat, b: nat)
    requires Shaped(t) && Named(t) && j < |t.nodes| && 0 < t.nodes[j].addrs[NDIRECT] < |t.disk|
    requires b in Entries(t.disk[t.nodes[j].addrs[NDIRECT]], n)
    ensures b in t.owner && t.owner[b].j == j && t.owner[b].i > NDIRECT + n
  {
    var m := EntryFrom(t.disk[t.nodes[j].addrs[NDIRECT]], n, b);
    assert Value(t, j, NDIRECT + 1 + m) == b;
    hide Word;
  }

  /** No block is named twice by an indirect block, nor by it and its pointer. */
  lemma EntriesApart(t: Fsys, j: nat, n: nat)
    requires Shaped(t) && Named(t) && j < |t.nodes| && 0 < t.nodes[j].addrs[NDIRECT] < |t.disk| && n < NINDIRECT
    ensures var x := t.nodes[j].addrs[NDIRECT];
      && x !in Entries(t.disk[x], n)
      && (Word(t.disk[x], n) != 0 ==> Word(t.disk[x], n) !in Entries(t.disk[x], n + 1) && Word(t.disk[x], n) != x)
  {
    var x := t.nodes[j].addrs[NDIRECT];
    assert Value(t, j, NDIRECT) == x && Value(t, j, NDIRECT + 1 + n) == Word(t.disk[x], n);
    hide Word;
    forall b | b in Entries(t.disk[x], n) ensures b in t.owner && t.owner[b].i > NDIRECT + n { EntryOwned(t, j, n, b); }
    forall b | b in Entries(t.disk[x], n + 1) ensures b in t.owner && t.owner[b].i > NDIRECT + n + 1 { EntryOwned(t, j, n + 1, b); }
    hide Entries;
  }

  lemma IndirectGone(t: Fsys, j: nat, k: nat, n: nat)
    requires Shaped(t) && Named(t) && j < |t.nodes| && 0 < t.nodes[j].addrs[NDIRECT] < |t.disk| && k < |t.nodes| && n < SLOTS
    requires Shaped(DetachIndirect(t, j))
    ensures var x := t.nodes[j].addrs[NDIRECT];
      Value(DetachIndirect(t, j), k, n) == if Value(t, k, n) in {x} + Entries(t.disk[x], 0) then 0 else Value(t, k, n)
  {
    var x, v := t.nodes[j].addrs[NDIRECT], Value(t, k, n);
    assert Value(t, j, NDIRECT) == x;
    if v in Entries(t.disk[x], 0) { EntryOwned(t, j, 0, v); }
    if k == j && n > NDIRECT && v != 0 { EntryIn(t.disk[x], 0, n - NDIRECT - 1); }
    hide Word, Entries;
  }

  lemma DetachIndirectOk(t: Fsys, j: nat)
    requires Shaped(t) && Named(t) && j < |t.nodes| && 0 < t.nodes[j].addrs[NDIRECT] < |t.disk|
    ensures var x := t.nodes[j].addrs[NDIRECT];
      Shaped(DetachIndirect(t, j)) && Drained(t, DetachIndirect(t, j), j, {x} + Entries(t.disk[x], 0))
  {
    var u, x := DetachIndirect(t, j), t.nodes[j].addrs[NDIRECT];
    assert Value(t, j, NDIRECT) == x;
    hide Word, Entries, Value;
    assert Shaped(u);
    forall b | b in Entries(t.disk[x], 0) ensures b in t.owner && t.owner[b].j == j { EntryOwned(t, j, 0, b); }
    forall k: nat, n: nat | k < |t.nodes| && n < SLOTS
      ensures Value(u, k, n) == if Value(t, k, n) in {x} + Entries(t.disk[x], 0) then 0 else Value(t, k, n)
    {
      IndirectGone(t, j, k, n);
    }
  }

  // ---- size ----

  function WithSize(t: Fsys, j: nat, size: nat): Fsys
    requires j < |t.nodes|
  {
    t.(nodes := t.nodes[j := t.nodes[j].(size := size)])
  }

  lemma SizeOk(t: Fsys, j: nat, size: nat, ahead: set<nat>, loose: set<nat>)
    requires Inv(t, ahead, loose) && j < |t.nodes| && j in ahead && size <= MAXFILE * BSIZE && t.nodes[j].kind != 0
    requires forall bn: nat :: bn < MAXFILE && bn * BSIZE < size ==> Value(t, j, Index(bn)) != 0
    ensures var u := WithSize(t, j, size); Inv(u, ahead, loose) && SameSlots(t, u) && SameData(t, u)
  {
    var u := WithSize(t, j, size);
    assert Shaped(u) && SameSlots(t, u);
    hide Value, BitAt, NodeAt;
    assert SameData(t, u);
    assert Tree(u);
  }

  // ---- what bmap may do ----

  /** Files keep their bytes and slots keep their blocks; slot `i` of inode `j` and its indirect pointer may have got one. */
  ghost predicate Grew(t: Fsys, u: Fsys, j: nat, i: nat)
    requires Shaped(t) && Shaped(u)
  {
    && |u.nodes| == |t.nodes| && u.sb == t.sb && SameData(t, u)
    && (forall b :: b in t.owner ==> b in u.owner && u.owner[b] == t.owner[b])
    && (forall k :: 0 <= k < |t.nodes| ==> u.nodes[k] == t.nodes[k].(addrs := u.nodes[k].addrs))
    && (forall k :: 0 <= k < |t.nodes| && k != j ==> u.nodes[k] == t.nodes[k])
    && (forall k: nat, n: nat :: k < |t.nodes| && n < SLOTS && (Value(t, k, n) != 0 || k != j || (n != i && n != NDIRECT)) ==>
          Value(u, k, n) == Value(t, k, n))
  }

  lemma GrewNone(t: Fsys, j: nat, i: nat)
    requires Shaped(t)
    ensures Grew(t, t, j, i)
  {
  }

  lemma GrewTwice(t: Fsys, u: Fsys, v: Fsys, j: nat, i: nat)
    requires Shaped(t) && Shaped(u) && Shaped(v) && Grew(t, u, j, i) && Grew(u, v, j, i)
    ensures Grew(t, v, j, i)
  {
    hide Value, DataOf;
  }

  lemma GrewFilled(t: Fsys, u: Fsys, j: nat, n: nat, b: nat, i: nat)
    requires Shaped(t) && Shaped(u) && Filled(t, u, j, n, b) && SameData(t, u) && (n == i || n == NDIRECT)
    requires j < |t.nodes| && n < SLOTS && Value(t, j, n) == 0 && b !in t.owner
    ensures Grew(t, u, j, i) && Value(u, j, n) == b > 0
  {
    hide Value, DataOf;
  }

  lemma FilledAfter(t: Fsys, u: Fsys, v: Fsys, j: nat, i: nat, b: nat)
    requires Shaped(t) && Shaped(u) && Shaped(v) && u.nodes == t.nodes && u.owner == t.owner && u.sb == t.sb
    requires SameSlots(t, u) && SameData(t, u) && Filled(u, v, j, i, b) && SameData(u, v)
    ensures Filled(t, v, j, i, b) && SameData(t, v)
  {
    hide Value, DataOf;
  }

  // ---- what itrunc may do ----

  /** Inode `j` has lost blocks and its size; nothing else has changed hands and no other file has changed. */
  ghost predicate Shed(t: Fsys, u: Fsys, j: nat)
    requires Shaped(t) && Shaped(u)
  {
    && |u.nodes| == |t.nodes| && u.sb == t.sb && j < |t.nodes|
    && u.nodes[j] == t.nodes[j].(size := 0, addrs := u.nodes[j].addrs)
    && (forall k :: 0 <= k < |t.nodes| && k != j ==> u.nodes[k] == t.nodes[k])
    && (forall b :: b in u.owner ==> b in t.owner && u.owner[b] == t.owner[b])
    && (forall b :: b in t.owner && t.owner[b].j != j ==> b in u.owner)
    && (forall k: nat, bn: nat :: k < |t.nodes| && k != j && bn < MAXFILE ==> DataOf(u, k, bn) == DataOf(t, k, bn))
  }

  lemma ShedDrained(t: Fsys, u: Fsys, v: Fsys, j: nat, gone: set<nat>)
    requires Shaped(t) && Shaped(u) && Shaped(v) && Shed(t, u, j) && Drained(u, v, j, gone) && Named(u)
    ensures Shed(t, v, j)
  {
    forall k: nat, bn: nat | k < |t.nodes| && k != j && bn < MAXFILE ensures DataOf(v, k, bn) == DataOf(t, k, bn) {
      DrainedData(u, v, j, gone, k, bn);
    }
    hide Value, DataOf;
  }

  lemma ShedSame(t: Fsys, u: Fsys, v: Fsys, j: nat)
    requires Shaped(t) && Shaped(u) && Shaped(v) && Shed(t, u, j) && SameData(u, v) && v.nodes == u.nodes && v.owner == u.owner && v.sb == u.sb
    ensures Shed(t, v, j)
  {
    hide DataOf;
  }

  /** With no addresses left, an inode owns nothing. */
  lemma OwnsNothing(t: Fsys, j: nat)
    requires Shaped(t) && OwnersName(t) && j < |t.nodes| && forall i :: 0 <= i <= NDIRECT ==> t.nodes[j].addrs[i] == 0
    ensures forall b :: b in t.owner ==> t.owner[b].j != j
  {
    hide Word;
  }

  // ---- exclusive ownership ----

  ghost predicate Names(t: Fsys, s: Slot, b: nat)
    requires Shaped(t)
  {
    s.j < |t.nodes| && s.i < SLOTS && Value(t, s.j, s.i) == b
  }

  /** The bitmap marks a data block exactly when a slot names it, and never do two. */
  lemma OwnedOnce(t: Fsys, b: nat, ahead: set<nat>)
    requires Inv(t, ahead, {}) && t.sb.DataStart() <= b < t.sb.size
    ensures BitAt(t.disk, t.sb, b) <==> exists s :: Names(t, s, b)
    ensures forall s, s' :: Names(t, s, b) && Names(t, s', b) ==> s == s'
  {
    hide Value, BitAt;
    if b in t.owner { assert Names(t, t.owner[b], b); }
    forall s | Names(t, s, b) ensures b in t.owner && t.owner[b] == s { assert Value(t, s.j, s.i) == b; }
  }

  // ---- inodes coming and going ----

  lemma EmptyValues(t: Fsys, j: nat, i: nat)
    requires Shaped(t) && j < |t.nodes| && Empty(t.nodes[j]) && i < SLOTS
    ensures Value(t, j, i) == 0
  {
  }

  /** An empty inode may be replaced by another empty one. */
  lemma RetypeOk(t: Fsys, j: nat, d: Dinode, ahead: set<nat>)
    requires Inv(t, ahead, {}) && j < |t.nodes| && j in ahead && Empty(t.nodes[j]) && d.Ok() && Empty(d)
    ensures var u := t.(nodes := t.nodes[j := d]); Inv(u, ahead, {}) && SameSlots(t, u) && SameData(t, u)
  {
    var u := t.(nodes := t.nodes[j := d]);
    assert Shaped(u);
    forall k: nat, i: nat | k < |t.nodes| && i < SLOTS ensures Value(u, k, i) == Value(t, k, i) {
      if k == j {
        EmptyValues(t, j, i);
        EmptyValues(u, j, i);
      }
      hide Word;
    }
    hide Value, BitAt, NodeAt;
    assert SameData(t, u);
    assert Tree(u);
  }

  /** A disk on which no inode is in use and only the blocks before the data are marked. */
  lemma FormattedOk(t: Fsys)
    requires Shaped(t) && t.owner == map[] && Saved(t, {}) && forall j :: 0 <= j < |t.nodes| ==> Empty(t.nodes[j])
    requires forall b: nat :: b < t.sb.size ==> (BitAt(t.disk, t.sb, b) <==> b < t.sb.DataStart())
    ensures Inv(t, {}, {})
  {
    forall j: nat, i: nat | j < |t.nodes| && i < SLOTS ensures Value(t, j, i) == 0 { EmptyValues(t, j, i); }
    hide Value, BitAt, NodeAt;
  }
}
