/**
 The inode layer of fs.c over the blocks as the file system sees them through the buffer cache:
 `bread` reads a block, `log_write` replaces it and records it as part of the transaction.
 */
module InodeLayer {
  import opened Options
  import opened Counting
  import opened DiskLayout
  import opened FileBytes
  import opened Inodes
  import LogDisk

  const NINODE := 50

  /** A slot of the inode cache; without references it is free. */
  datatype Islot = Islot(refs: nat, inum: nat)

  ghost predicate InSlot(slots: seq<Islot>, i: nat, j: nat) {
    i < |slots| && slots[i].refs > 0 && slots[i].inum == j
  }

  /** No inode is in two slots. */
  ghost predicate SlotsOk(slots: seq<Islot>) {
    |slots| == NINODE && forall i, k, j :: InSlot(slots, i, j) && InSlot(slots, k, j) ==> i == k
  }

  /** How many references there are to inode `j`. */
  ghost function RefsTo(slots: seq<Islot>, j: nat): nat {
    if exists i: nat :: InSlot(slots, i, j) then (var i: nat :| InSlot(slots, i, j); slots[i].refs) else 0
  }

  class Fs {
    const sb: Superblock
    var disk: Disk
    var icache: map<nat, Dinode>  // the inodes in memory that are valid
    var slots: seq<Islot>         // who is in memory, and how many references there are

    ghost var nodes: seq<Dinode>
    ghost var owner: map<nat, Slot>
    ghost var logged: set<nat>    // the blocks this transaction has logged

    ghost function Now(): Fsys
      reads this
    {
      Fsys(sb, disk, nodes, owner)
    }

    /** The icache holds what the kernel knows of the inodes, and only inodes in use. */
    ghost predicate Cached()
      reads this
    {
      forall j :: j in icache ==> j < |nodes| && icache[j] == nodes[j] && nodes[j].kind != 0
    }

    /** Every inode but those of `ahead` is on disk as the kernel has it. */
    ghost predicate Valid(ahead: set<nat>)
      reads this
    {
      Inv(Now(), ahead, {}) && Cached()
    }

    /** A disk whose every block is accounted for, with no inode in memory. */
    constructor (sb: Superblock, disk: Disk, ghost t: Fsys)
      requires Inv(t, {}, {}) && t.sb == sb && t.disk == disk
      ensures Valid({}) && Now() == t && icache == map[] && logged == {} && SlotsOk(slots) && forall j :: RefsTo(slots, j) == 0
    {
      this.sb, this.disk, icache, slots := sb, disk, map[], seq(NINODE, _ => Islot(0, 0));
      nodes, owner, logged := t.nodes, t.owner, {};
    }

    method LogWrite(b: nat, blk: Block)
      requires b < |disk|
      modifies this`disk, this`logged
      ensures disk == old(disk)[b := blk] && logged == old(logged) + {b}
    {
      disk := disk[b := blk];
      logged := logged + {b};
    }

    // ---- blocks ----

    /** What `balloc` does with the free block it has found. */
    method Claim(b: nat, ghost ahead: set<nat>)
      requires Inv(Now(), ahead, {}) && b < sb.size && !BitAt(disk, sb, b)
      modifies this`disk, this`logged
      ensures sb.DataStart() <= b && b !in owner && Inv(Now(), ahead, {b}) && disk[b] == Zero()
      ensures SameSlots(old(Now()), Now()) && SameData(old(Now()), Now())
      ensures logged == old(logged) + {BBlock(b, sb), b}
    {
      hide Inv, SameSlots, SameData, Bit, PutBit, Zero;
      ghost var t := Now();
      InvShaped(t, ahead, {});
      MarkOk(t, b, ahead);
      DataBit(t, b, ahead);
      LogWrite(BBlock(b, sb), PutBit(disk[BBlock(b, sb)], b % BPB, true));
      assert Now() == PutBitAt(t, b, true);
      LooseWrite(Now(), b, Zero(), ahead, {b});
      SameTwice(t, Now(), Put(Now(), b, Zero()));
      LogWrite(b, Zero());
    }

    /** Find the first block that the bitmap says is free, mark it and zero it; None stands for the panic. */
    method Balloc(ghost ahead: set<nat>) returns (r: Option<nat>)
      requires Inv(Now(), ahead, {})
      modifies this`disk, this`logged
      ensures r.None? ==> unchanged(this) && forall b: nat :: b < sb.size ==> BitAt(disk, sb, b)
      ensures r.Some? ==>
        && sb.DataStart() <= r.value < sb.size && r.value !in owner && Inv(Now(), ahead, {r.value}) && disk[r.value] == Zero()
        && SameSlots(old(Now()), Now()) && SameData(old(Now()), Now())
        && logged == old(logged) + {BBlock(r.value, sb), r.value}
      ensures r.Some? ==> FirstUnmarked(old(disk), sb, r.value)
    {
      hide Inv, SameSlots, SameData, Bit, PutBit, Zero;
      ghost var t := Now();
      InvShaped(t, ahead, {});
      var b := 0;
      while b < sb.size
        invariant 0 <= b && b % BPB == 0
        invariant unchanged(this)
        invariant forall x: nat :: x < b && x < sb.size ==> BitAt(disk, sb, x)
      {
        var m := disk[BBlock(b, sb)];
        var bi := 0;
        while bi < BPB && b + bi < sb.size
          invariant 0 <= bi <= BPB && unchanged(this)
          invariant forall x: nat :: x < b + bi && x < sb.size ==> BitAt(disk, sb, x)
        {
          BitNumber(sb, b, bi);
          if !Bit(m, bi) {
            assert FirstUnmarked(disk, sb, b + bi);
            Claim(b + bi, ahead);
            return Some(b + bi);
          }
          bi := bi + 1;
        }
        b := b + BPB;
      }
      r := None;
    }

    /** A new block for an empty direct slot or indirect pointer. */
    method FillAddr(j: nat, i: nat) returns (r: Option<nat>)
      requires Valid({j}) && j in icache && i <= NDIRECT && icache[j].Ok() && icache[j].addrs[i] == 0
      modifies `disk, `icache, `nodes, `owner, `logged
      ensures r.None? ==> unchanged(this) && forall b: nat :: b < sb.size ==> BitAt(disk, sb, b)
      ensures r.Some? ==>
        && Valid({j}) && icache.Keys == old(icache.Keys)
        && Filled(old(Now()), Now(), j, i, r.value) && SameData(old(Now()), Now())
        && r.value !in old(owner) && logged == old(logged) + {BBlock(r.value, sb), r.value}
    {
      hide Inv, SameSlots, SameData, Zero, Filled, BitAt;
      ghost var t := Now();
      InvShaped(t, {j}, {});
      r := Balloc({j});
      if r.Some? {
        var b := r.value;
        ghost var u := Now();
        InvShaped(u, {j}, {b});
        AttachOk(u, j, i, b, {j});
        InvShaped(Attach(u, j, i, b), {j}, {});
        FilledAfter(t, u, Attach(u, j, i, b), j, i, b);
        icache := icache[j := icache[j].(addrs := icache[j].addrs[i := b])];
        nodes := nodes[j := nodes[j].(addrs := nodes[j].addrs[i := b])];
        owner := owner[b := Slot(j, i)];
        assert Now() == Attach(u, j, i, b);
      }
    }

    /** A new block for an empty entry of the indirect block `x`. */
    method FillEntry(j: nat, x: nat, n: nat) returns (r: Option<nat>)
      requires Valid({j}) && j in icache && n < NINDIRECT && icache[j].Ok() && icache[j].addrs[NDIRECT] == x != 0
      requires x < |disk| && Word(disk[x], n) == 0
      modifies `disk, `icache, `nodes, `owner, `logged
      ensures r.None? ==> unchanged(this) && forall b: nat :: b < sb.size ==> BitAt(disk, sb, b)
      ensures r.Some? ==>
        && Valid({j}) && icache == old(icache)
        && Filled(old(Now()), Now(), j, NDIRECT + 1 + n, r.value) && SameData(old(Now()), Now())
        && r.value !in old(owner) && logged == old(logged) + {BBlock(r.value, sb), r.value, x}
    {
      hide Inv, SameSlots, SameData, Zero, Filled, BitAt, Word;
      ghost var t := Now();
      InvShaped(t, {j}, {});
      assert Value(t, j, NDIRECT + 1 + n) == 0;
      r := Balloc({j});
      if r.Some? {
        var b := r.value;
        ghost var u := Now();
        InvShaped(u, {j}, {b});
        SameValue(t, u, j, NDIRECT + 1 + n);
        AttachEntryOk(u, j, n, b, {j});
        InvShaped(AttachEntry(u, j, n, b), {j}, {});
        FilledAfter(t, u, AttachEntry(u, j, n, b), j, NDIRECT + 1 + n, b);
        LogWrite(x, PutWords(disk[x], n, [b]));
        owner := owner[b := Slot(j, NDIRECT + 1 + n)];
        assert Now() == AttachEntry(u, j, n, b);
      }
    }

    /** The block in a direct slot or indirect pointer, allocated first if there is none. */
    method MapAddr(j: nat, i: nat, ghost i': nat) returns (r: Option<nat>)
      requires Valid({j}) && j in icache && i <= NDIRECT && (i == i' || i == NDIRECT)
      modifies `disk, `icache, `nodes, `owner, `logged
      ensures Valid({j}) && icache.Keys == old(icache.Keys) && Grew(old(Now()), Now(), j, i')
      ensures r.None? ==> unchanged(this) && forall b: nat :: b < sb.size ==> BitAt(disk, sb, b)
      ensures r.Some? ==> r.value == Value(Now(), j, i) != 0 && logged <= old(logged) + Bitmap(sb) + {r.value}
      ensures Value(old(Now()), j, i) != 0 ==> r.Some? && unchanged(this)
    {
      hide Inv, SameSlots, SameData, Filled, BitAt, Grew;
      ghost var t := Now();
      InvShaped(t, {j}, {});
      GrewNone(t, j, i');
      var addr := icache[j].addrs[i];
      if addr != 0 { return Some(addr); }
      r := FillAddr(j, i);
      if r.Some? {
        InvShaped(Now(), {j}, {});
        GrewFilled(t, Now(), j, i, r.value, i');
        InvValue(Now(), j, i, {j});
        InBitmap(sb, r.value);
      }
    }

    /** The block in an entry of the indirect block `x`, allocated first if there is none. */
    method MapEntry(j: nat, x: nat, n: nat) returns (r: Option<nat>)
      requires Valid({j}) && j in icache && n < NINDIRECT && icache[j].Ok() && icache[j].addrs[NDIRECT] == x != 0
      modifies `disk, `icache, `nodes, `owner, `logged
      ensures Valid({j}) && icache == old(icache) && Grew(old(Now()), Now(), j, NDIRECT + 1 + n)
      ensures r.None? ==> unchanged(this) && forall b: nat :: b < sb.size ==> BitAt(disk, sb, b)
      ensures r.Some? ==> r.value == Value(Now(), j, NDIRECT + 1 + n) != 0 && logged <= old(logged) + Bitmap(sb) + {r.value, x}
      ensures Value(old(Now()), j, NDIRECT + 1 + n) != 0 ==> r.Some? && unchanged(this)
    {
      hide Inv, SameSlots, SameData, Filled, BitAt, Grew, Word;
      ghost var t, i := Now(), NDIRECT + 1 + n;
      InvShaped(t, {j}, {});
      InvValue(t, j, NDIRECT, {j});
      GrewNone(t, j, i);
      var addr := Word(disk[x], n);
      if addr != 0 { return Some(addr); }
      r := FillEntry(j, x, n);
      if r.Some? {
        InvShaped(Now(), {j}, {});
        GrewFilled(t, Now(), j, i, r.value, i);
        InvValue(Now(), j, i, {j});
        InBitmap(sb, r.value);
      }
    }

    /** The disk block behind block `bn` of a file, allocated first if there is none; None stands for the panic. */
    method Bmap(j: nat, bn: nat) returns (r: Option<nat>)
      requires Valid({j}) && j in icache && bn < MAXFILE
      modifies `disk, `icache, `nodes, `owner, `logged
      ensures Valid({j}) && icache.Keys == old(icache.Keys) && Grew(old(Now()), Now(), j, Index(bn))
      ensures r.None? ==> forall b: nat :: b < sb.size ==> BitAt(disk, sb, b)
      ensures r.Some? ==> r.value == Value(Now(), j, Index(bn)) != 0
      ensures r.Some? ==> logged <= old(logged) + Bitmap(sb) + {r.value} + if bn < NDIRECT then {} else {Value(Now(), j, NDIRECT)}
      ensures Value(old(Now()), j, Index(bn)) != 0 ==> r.Some? && unchanged(this)
    {
      hide Inv, SameSlots, SameData, BitAt, Grew, Value;
      ghost var t := Now();
      InvShaped(t, {j}, {});
      if bn < NDIRECT {
        r := MapAddr(j, bn, bn);
        return;
      }
      EntryNeedsPointer(t, j, Index(bn));
      var x := MapAddr(j, NDIRECT, Index(bn));
      if x.None? { return None; }
      ghost var u := Now();
      InvShaped(u, {j}, {});
      PointerValue(u, j);
      r := MapEntry(j, x.value, bn - NDIRECT);
      InvShaped(Now(), {j}, {});
      GrewTwice(t, u, Now(), j, Index(bn));
      GrewValue(u, Now(), j, Index(bn), NDIRECT);
    }

    /** Clear the mark of a block; freeing a block that is not marked would be a panic. */
    method Bfree(b: nat)
      requires Shaped(Now()) && b < sb.size && BitAt(disk, sb, b)
      modifies this`disk, this`logged
      ensures Now() == PutBitAt(old(Now()), b, false) && logged == old(logged) + {BBlock(b, sb)}
    {
      LogWrite(BBlock(b, sb), PutBit(disk[BBlock(b, sb)], b % BPB, false));
    }

    // ---- inodes ----

    /** Copy an inode that is in memory to its place on disk. */
    method Iupdate(j: nat, ghost ahead: set<nat>)
      requires Valid(ahead) && j in icache
      modifies this`disk, this`logged
      ensures Valid(ahead - {j}) && SameSlots(old(Now()), Now()) && SameData(old(Now()), Now())
      ensures logged == old(logged) + {IBlock(j, sb)}
    {
      hide Inv, SameSlots, SameData, PutDinode;
      ghost var t := Now();
      InvShaped(t, ahead, {});
      SaveOk(t, j, ahead, {});
      Regions(sb, 0, j);
      LogWrite(IBlock(j, sb), PutDinode(disk[IBlock(j, sb)], j % IPB, icache[j]));
      assert Now() == PutNodeAt(t, j, nodes[j]);
    }

    /** The kernel's inodes, but that the size of inode `j` in memory is still to be reset. */
    ghost predicate Truncating(j: nat)
      reads this
    {
      && j in icache && (forall k :: k in icache ==> k < |nodes| && nodes[k].kind != 0 && (k != j ==> icache[k] == nodes[k]))
      && nodes[j] == icache[j].(size := 0) && icache[j].Ok()
    }

    /** One step of the first loop of `itrunc`. */
    method FreeAddr(j: nat, i: nat, ghost t: Fsys)
      requires Trunc(t, Now(), j, {}) && Truncating(j) && i < NDIRECT
      modifies `disk, `icache, `nodes, `owner, `logged
      ensures Trunc(t, Now(), j, {}) && Truncating(j) && icache.Keys == old(icache.Keys)
      ensures old(icache[j]).Ok() && icache[j] == old(icache[j]).(addrs := old(icache[j]).addrs[i := 0])
    {
      hide Trunc, BitAt, Bit, PutBit;
      TruncShaped(t, Now(), j, {});
      var b := icache[j].addrs[i];
      if b != 0 {
        ghost var v := Detach(Now(), j, i);
        DetachFreed(t, Now(), j, i);
        Bfree(b);
        icache := icache[j := icache[j].(addrs := icache[j].addrs[i := 0])];
        nodes, owner := v.nodes, v.owner;
        assert Now() == PutBitAt(v, b, false);
      }
      assert old(icache[j]).addrs[i := 0] == icache[j].addrs;
    }

    /** The second half of `itrunc`: the entries of the indirect block, then the block itself. */
    method FreeIndirect(j: nat, ghost t: Fsys)
      requires Trunc(t, Now(), j, {}) && Truncating(j) && icache[j].Ok() && icache[j].addrs[NDIRECT] != 0
      modifies `disk, `icache, `nodes, `owner, `logged
      ensures Trunc(t, Now(), j, {}) && Truncating(j) && icache.Keys == old(icache.Keys)
      ensures icache[j] == old(icache[j]).(addrs := old(icache[j]).addrs[NDIRECT := 0])
    {
      hide Trunc, BitAt, Bit, PutBit, Word, Entries;
      ghost var u := Now();
      TruncShaped(t, u, j, {});
      DetachedIndirect(t, u, j);
      var x := icache[j].addrs[NDIRECT];
      var a := disk[x];
      nodes, owner := DetachIndirect(u, j).nodes, DetachIndirect(u, j).owner;
      var n := 0;
      while n < NINDIRECT
        invariant 0 <= n <= NINDIRECT && icache == old(icache) && nodes == DetachIndirect(u, j).nodes
        invariant Trunc(t, Now(), j, {x} + Entries(a, n))
      {
        EntriesStep(t, u, j, n);
        if Word(a, n) != 0 {
          LooseFreed(t, Now(), j, {x} + Entries(a, n), Word(a, n));
          Bfree(Word(a, n));
        }
        n := n + 1;
      }
      EntriesEnd(u, j);
      assert {x} + Entries(a, n) == {x} && {x} - {x} == {};
      LooseFreed(t, Now(), j, {x}, x);
      Bfree(x);
      icache := icache[j := icache[j].(addrs := icache[j].addrs[NDIRECT := 0])];
    }

    /** Free every block of a file, and leave it empty. */
    method Itrunc(j: nat)
      requires Valid({j}) && j in icache
      modifies `disk, `icache, `nodes, `owner, `logged
      ensures Valid({}) && icache.Keys == old(icache.Keys)
      ensures nodes[j] == old(nodes[j]).(size := 0, addrs := NoAddrs()) && Shed(old(Now()), Now(), j)
      ensures forall b :: b in owner ==> owner[b].j != j
    {
      hide Inv, Shed, Trunc, NoAddrs, SameSlots, SameData;
      ghost var t := Now();
      InvShaped(t, {j}, {});
      TruncBegins(t, j);
      nodes := nodes[j := nodes[j].(size := 0)];
      assert Now() == WithSize(t, j, 0);
      FreeDirect(j, t);
      TruncShaped(t, Now(), j, {});
      if icache[j].addrs[NDIRECT] != 0 {
        FreeIndirect(j, t);
      }
      TruncShaped(t, Now(), j, {});
      ResetSize(j, t);
    }

    /** The end of `itrunc`. */
    method ResetSize(j: nat, ghost t: Fsys)
      requires Trunc(t, Now(), j, {}) && Truncating(j) && forall i :: 0 <= i <= NDIRECT ==> icache[j].addrs[i] == 0
      modifies `disk, `icache, `nodes, `owner, `logged
      ensures Valid({}) && icache.Keys == old(icache.Keys)
      ensures nodes[j] == t.nodes[j].(size := 0, addrs := NoAddrs()) && Shed(t, Now(), j)
      ensures forall b :: b in owner ==> owner[b].j != j
    {
      hide Inv, Shed, Trunc, NoAddrs, SameSlots, SameData;
      ghost var u := Now();
      TruncShaped(t, u, j, {});
      icache := icache[j := icache[j].(size := 0)];
      TruncEnds(t, u, j);
      Iupdate(j, {j});
      ShedSaved(t, u, Now(), j);
    }

    /** The first loop of `itrunc`. */
    method FreeDirect(j: nat, ghost t: Fsys)
      requires Trunc(t, Now(), j, {}) && Truncating(j)
      modifies `disk, `icache, `nodes, `owner, `logged
      ensures Trunc(t, Now(), j, {}) && Truncating(j) && icache.Keys == old(icache.Keys)
      ensures icache[j].Ok() && forall k :: 0 <= k < NDIRECT ==> icache[j].addrs[k] == 0
    {
      hide Trunc;
      TruncShaped(t, Now(), j, {});
      var i := 0;
      while i < NDIRECT
        invariant 0 <= i <= NDIRECT && icache.Keys == old(icache.Keys)
        invariant Trunc(t, Now(), j, {}) && Truncating(j) && icache[j].Ok()
        invariant forall k :: 0 <= k < i ==> icache[j].addrs[k] == 0
      {
        FreeAddr(j, i, t);
        i := i + 1;
      }
    }

    // ---- contents ----

    /** The part of a block of a file that one turn of the loop of `readi` reads. */
    method ReadBlock(j: nat, o: nat, m: nat) returns (part: seq<Byte>)
      requires Valid({}) && j in icache && o < nodes[j].size <= MAXBYTES && o + m <= nodes[j].size && m <= BSIZE - o % BSIZE
      modifies `disk, `icache, `nodes, `owner, `logged
      ensures unchanged(this) && part == Content(Now(), j)[o..o + m]
    {
      hide Inv, Value, DataOf, BitAt, Grew;
      ghost var t := Now();
      AheadMore(t, {}, {j});
      InvBlock(t, j, o / BSIZE);
      BlockBytes(t, j, o, m);
      var b := Bmap(j, o / BSIZE);
      part := disk[b.value][o % BSIZE..o % BSIZE + m];
    }

    /** The loop of `readi`: `n` bytes from `off` on, all of them below the size. */
    method ReadLoop(j: nat, off: nat, n: nat, limit: nat) returns (r: int, dst: seq<Byte>)
      requires Valid({}) && j in icache && off + n <= nodes[j].size <= MAXBYTES && Shaped(Now())
      modifies `disk, `icache, `nodes, `owner, `logged
      ensures unchanged(this)
      ensures dst <= Content(Now(), j)[off..off + n]
      ensures r == -1 <==> limit < n
      ensures r != -1 ==> r == n && dst == Content(Now(), j)[off..off + n]
    {
      hide Inv, Shaped, Content;
      ghost var c := Content(Now(), j);
      var tot := 0;
      dst := [];
      while tot < n
        invariant 0 <= tot <= n && tot <= limit && unchanged(this) && dst == c[off..off + tot]
      {
        var m := Min(n - tot, BSIZE - (off + tot) % BSIZE);
        var part := ReadBlock(j, off + tot, m);
        SliceMore(c, off, tot, m);
        if tot + m > limit { return -1, dst; }
        dst := dst + part;
        tot := tot + m;
      }
      r := tot;
    }

    /** At most `n` bytes of a file from `off` on; the copy out fails past `limit` bytes. */
    method Readi(j: nat, off: nat, n: nat, limit: nat) returns (r: int, dst: seq<Byte>)
      requires Valid({}) && j in icache && off < WORD && n < WORD
      modifies `disk, `icache, `nodes, `owner, `logged
      ensures unchanged(this) && Shaped(Now()) && nodes[j].size <= MAXBYTES
      ensures off > nodes[j].size || off + n >= WORD ==> r == 0 && dst == []
      ensures off <= nodes[j].size && off + n < WORD ==> (r == -1 <==> limit < Min(n, nodes[j].size - off))
      ensures off <= nodes[j].size && off + n < WORD && r != -1 ==>
        r == |dst| && dst == Content(Now(), j)[off..Min(off + n, nodes[j].size)]
    {
      hide Inv, Shaped, Content;
      InvComplete(Now(), j);
      if off > icache[j].size || (off + n) % WORD < off { return 0, []; }
      r, dst := ReadLoop(j, off, if off + n > icache[j].size then icache[j].size - off else n, limit);
    }

    /** The bytes `part` put in a block of a file. */
    method WriteBlock(j: nat, b: nat, bn: nat, o: nat, part: seq<Byte>)
      requires Valid({j}) && j in icache && bn < MAXFILE && b == Value(Now(), j, Index(bn)) != 0 && o + |part| <= BSIZE
      modifies this`disk, this`logged
      ensures Valid({j}) && logged == old(logged) + {b}
      ensures Replaced(old(Now()), Now(), j, bn, Patched(DataOf(old(Now()), j, bn), o, part))
    {
      hide Inv, SameSlots;
      ghost var t := Now();
      InvShaped(t, {j}, {});
      InvValue(t, j, Index(bn), {j});
      hide Value, Patched;
      WriteOk(t, j, bn, Patched(disk[b], o, part), {j});
      LogWrite(b, Patched(disk[b], o, part));
    }

    /** The first `tot` bytes of `src` have been written from `off` on, since state `t`. */
    ghost predicate Writing(t: Fsys, before: set<nat>, j: nat, off: nat, src: seq<Byte>, tot: nat)
      reads this
    {
      && Valid({j}) && j in icache && Shaped(t) && Written(t, Now(), j, off, src, tot) && off + |src| <= MAXBYTES
      && OnlyLogged(Now(), j, off / BSIZE, BlockEnd(off + |src|), before, logged)
    }

    /** The first half of a turn of the loop of `writei`: the block is mapped. */
    method MapStep(j: nat, src: seq<Byte>, off: nat, tot: nat, ghost t: Fsys, ghost before: set<nat>) returns (b: Option<nat>)
      requires Writing(t, before, j, off, src, tot) && tot < |src|
      modifies `disk, `icache, `nodes, `owner, `logged
      ensures Valid({j}) && icache.Keys == old(icache.Keys)
      ensures Shaped(Now()) && (b.None? ==> forall b: nat :: b < sb.size ==> BitAt(disk, sb, b))
      ensures b.Some? ==> Writing(t, before, j, off, src, tot) && (off + tot) / BSIZE < MAXFILE
      ensures b.Some? ==> b.value == Value(Now(), j, Index((off + tot) / BSIZE)) != 0
    {
      hide Inv, Written, Value, Grew, BitAt, OnlyLogged, Bitmap;
      ghost var u, l0 := Now(), logged;
      InvShaped(u, {j}, {});
      InRange(off, |src|, off + tot);
      b := Bmap(j, (off + tot) / BSIZE);
      InvShaped(Now(), {j}, {});
      if b.Some? {
        WrittenGrew(t, u, Now(), j, Index((off + tot) / BSIZE), off, src, tot);
        LogMapped(u, Now(), j, off / BSIZE, BlockEnd(off + |src|), (off + tot) / BSIZE, before, l0, logged);
      }
    }

    /** The second half: `m` bytes are copied into the block, which is logged. */
    method CopyStep(j: nat, b: nat, src: seq<Byte>, off: nat, tot: nat, m: nat, ghost t: Fsys, ghost before: set<nat>)
      requires Writing(t, before, j, off, src, tot) && 0 < m <= BSIZE - (off + tot) % BSIZE && tot + m <= |src|
      requires (off + tot) / BSIZE < MAXFILE && Shaped(Now()) && b == Value(Now(), j, Index((off + tot) / BSIZE)) != 0
      modifies this`disk, this`logged
      ensures Writing(t, before, j, off, src, tot + m)
    {
      hide Inv, Written, Value, Replaced, OnlyLogged, DataOf;
      ghost var u, l0 := Now(), logged;
      InRange(off, |src|, off + tot);
      WriteBlock(j, b, (off + tot) / BSIZE, (off + tot) % BSIZE, src[tot..tot + m]);
      InvShaped(Now(), {j}, {});
      WrittenMore(t, u, Now(), j, off, src, tot, m);
      LogAgain(u, Now(), j, off / BSIZE, BlockEnd(off + |src|), (off + tot) / BSIZE, before, l0, logged);
    }

    /** The end of `writei`: the size, when the write went past it, and the inode on disk. */
    method FinishWrite(j: nat, off: nat, ghost src: seq<Byte>, tot: nat, ghost t: Fsys, ghost before: set<nat>)
      requires Writing(t, before, j, off, src, tot) && Inv(t, {}, {}) && off <= t.nodes[j].size
      modifies `disk, `icache, `nodes, `owner, `logged
      ensures Valid({}) && icache.Keys == old(icache.Keys) && Stored(t, Now(), j, off, src[..tot])
      ensures OnlyLogged(Now(), j, off / BSIZE, BlockEnd(off + |src|), before, logged)
    {
      hide Inv, Written, OnlyLogged, Stored, SameSlots, SameData;
      ghost var u := Now();
      WrittenSize(t, u, j, off, src, tot);
      ghost var size := Max(t.nodes[j].size, off + tot);
      if off + tot > icache[j].size {
        icache := icache[j := icache[j].(size := off + tot)];
      }
      nodes := nodes[j := nodes[j].(size := size)];
      assert Now() == WithSize(u, j, size);
      ghost var l0 := logged;
      Iupdate(j, {j});
      WriteEnds(t, u, Now(), j, off, src, tot);
      LogSaved(u, Now(), j, off / BSIZE, BlockEnd(off + |src|), before, l0, logged);
    }

    /** Copy `src` into a file at `off`; the copy in fails past `limit` bytes. None stands for the panic of `balloc`. */
    method Writei(j: nat, src: seq<Byte>, off: nat, limit: nat) returns (r: Option<int>, ghost done: nat)
      requires Valid({}) && j in icache && off < WORD && |src| < WORD
      modifies `disk, `icache, `nodes, `owner, `logged
      ensures r.None? ==> Shaped(Now()) && forall b: nat :: b < sb.size ==> BitAt(disk, sb, b)
      ensures off > old(nodes[j]).size || off + |src| > MAXBYTES ==> r == Some(-1) && unchanged(this)
      ensures off <= old(nodes[j]).size && off + |src| <= MAXBYTES && r.Some? ==>
        && Valid({}) && icache.Keys == old(icache.Keys) && done <= |src|
        && Stored(old(Now()), Now(), j, off, src[..done])
        && OnlyLogged(Now(), j, off / BSIZE, BlockEnd(off + |src|), old(logged), logged)
        && (if limit >= |src| then done == |src| else done <= limit < done + BSIZE)
        && r.value == if done == |src| then |src| else -1
    {
      hide Inv, OnlyLogged, Stored, BitAt, Writing;
      ghost var t, before := Now(), logged;
      done := 0;
      if off > icache[j].size || (off + |src|) % WORD < off { return Some(-1), 0; }
      if off + |src| > MAXBYTES { return Some(-1), 0; }
      WriteBegins(t, j, off, src, before);
      BeginWriting(j, off, src);
      var ok, n, tot := WriteLoop(j, src, off, limit, t, before);
      done := tot;
      if !ok { return None, tot; }
      if n > 0 {
        FinishWrite(j, off, src, tot, t, before);
      }
      r := Some(if n < 0x8000_0000 then n else n - WORD);
    }

    lemma BeginWriting(j: nat, off: nat, src: seq<Byte>)
      requires Valid({}) && j in icache && off <= nodes[j].size && off + |src| <= MAXBYTES
      ensures Writing(Now(), logged, j, off, src, 0)
    {
      WriteBegins(Now(), j, off, src, logged);
      hide Inv, Written, Stored, OnlyLogged;
      InvShaped(Now(), {j}, {});
    }

    /** The loop of `writei`: how many bytes it wrote, and its `n`, which is -1 when a copy failed. */
    method WriteLoop(j: nat, src: seq<Byte>, off: nat, limit: nat, ghost t: Fsys, ghost before: set<nat>) returns (ok: bool, n: nat, tot: nat)
      requires Writing(t, before, j, off, src, 0)
      modifies `disk, `icache, `nodes, `owner, `logged
      ensures !ok ==> Shaped(Now()) && forall b: nat :: b < sb.size ==> BitAt(disk, sb, b)
      ensures ok ==> Writing(t, before, j, off, src, tot) && icache.Keys == old(icache.Keys)
      ensures ok && limit >= |src| ==> n == tot == |src|
      ensures ok && limit < |src| ==> n == WORD - 1 && tot <= limit < tot + BSIZE
      ensures ok && n == 0 ==> unchanged(this)
    {
      hide Inv, BitAt, Value, Writing;
      ok, n, tot := true, |src|, 0;
      while tot < n
        invariant 0 <= tot <= n == |src| && icache.Keys == old(icache.Keys) && tot <= limit
        invariant Writing(t, before, j, off, src, tot)
        invariant n == 0 ==> unchanged(this)
      {
        var b := MapStep(j, src, off, tot, t, before);
        if b.None? { return false, n, tot; }
        var m := Min(n - tot, BSIZE - (off + tot) % BSIZE);
        if tot + m > limit { return true, WORD - 1, tot; }
        CopyStep(j, b.value, src, off, tot, m, t, before);
        tot := tot + m;
      }
    }

    // ---- the life of an inode ----

    /** Bring an inode in use into memory. */
    method Ilock(j: nat)
      requires Valid({}) && j < |nodes| && nodes[j].kind != 0
      modifies this`icache
      ensures Valid({}) && icache == old(icache)[j := nodes[j]]
    {
      hide Inv;
      InvShaped(Now(), {}, {});
      InvSaved(Now(), j);
      if j !in icache {
        icache := icache[j := NodeAt(disk, sb, j)];
      }
    }

    /** A free inode, given type `kind` on disk; None stands for the panic. */
    method Ialloc(kind: nat) returns (r: Option<nat>)
      requires Valid({}) && 0 < kind < 65536
      modifies `disk, `icache, `nodes, `owner, `logged
      ensures Valid({}) && icache == old(icache) && owner == old(owner)
      ensures r.None? ==> unchanged(this) && forall j :: 1 <= j < |nodes| ==> nodes[j].kind != 0
      ensures r.Some? ==>
        && 1 <= r.value < |nodes| == |old(nodes)| && old(nodes)[r.value].kind == 0
        && nodes == old(nodes)[r.value := Dinode(kind, 0, 0, 0, 0, NoAddrs())] && SameData(old(Now()), Now())
        && forall k :: 1 <= k < r.value ==> old(nodes)[k].kind != 0
    {
      hide Inv, SameSlots, SameData, NodeAt;
      ghost var t := Now();
      InvShaped(t, {}, {});
      var j := 1;
      while j < sb.ninodes
        invariant 1 <= j && unchanged(this)
        invariant forall k :: 1 <= k < j && k < |nodes| ==> nodes[k].kind != 0
      {
        InvSaved(t, j);
        if NodeAt(disk, sb, j).kind == 0 {
          SetKind(j, Dinode(kind, 0, 0, 0, 0, NoAddrs()));
          return Some(j);
        }
        j := j + 1;
      }
      r := None;
    }

    /** Write an empty inode over an empty one, on disk. */
    method SetKind(j: nat, d: Dinode)
      requires Valid({}) && j < |nodes| && Empty(nodes[j]) && d.Ok() && Empty(d) && j !in icache
      modifies `disk, `icache, `nodes, `owner, `logged
      ensures Valid({}) && nodes == old(nodes)[j := d] && owner == old(owner) && icache == old(icache)
      ensures SameData(old(Now()), Now()) && logged == old(logged) + {IBlock(j, sb)}
    {
      hide Inv, SameSlots, SameData, PutDinode;
      ghost var t := Now();
      InvShaped(t, {}, {});
      AheadMore(t, {}, {j});
      RetypeOk(t, j, d, {j});
      ghost var u := t.(nodes := t.nodes[j := d]);
      SaveOk(u, j, {j}, {});
      assert {j} - {j} == {};
      Regions(sb, 0, j);
      LogWrite(IBlock(j, sb), PutDinode(disk[IBlock(j, sb)], j % IPB, d));
      nodes := nodes[j := d];
      assert Now() == PutNodeAt(u, j, d);
      InvShaped(Now(), {}, {});
      SameTwice(t, u, Now());
    }

    /** A reference to inode `j`: one more, or the first one in a free slot; None stands for the panic. */
    method Iget(j: nat) returns (r: Option<nat>)
      requires Valid({}) && SlotsOk(slots)
      modifies `slots, `icache
      ensures Valid({}) && SlotsOk(slots)
      ensures r.None? <==> old(RefsTo(slots, j)) == 0 && forall i :: 0 <= i < 50 ==> old(slots)[i].refs > 0
      ensures r.None? ==> unchanged(this)
      ensures r.Some? ==> InSlot(slots, r.value, j) && forall k :: RefsTo(slots, k) == old(RefsTo(slots, k)) + if k == j then 1 else 0
      ensures r.Some? ==> icache == if old(RefsTo(slots, j)) > 0 then old(icache) else old(icache) - {j}
    {
      var empty: Option<nat> := None;
      var i := 0;
      while i < NINODE
        invariant 0 <= i <= NINODE && unchanged(this)
        invariant forall k :: 0 <= k < i ==> !InSlot(slots, k, j)
        invariant empty.None? ==> forall k :: 0 <= k < i ==> slots[k].refs > 0
        invariant empty.Some? ==> empty.value < i && slots[empty.value].refs == 0
      {
        if slots[i].refs > 0 && slots[i].inum == j {
          assert InSlot(slots, i, j);
          SlotSet(slots, i, Islot(slots[i].refs + 1, j));
          slots := slots[i := Islot(slots[i].refs + 1, j)];
          return Some(i);
        }
        if empty.None? && slots[i].refs == 0 { empty := Some(i); }
        i := i + 1;
      }
      assert forall k :: !InSlot(slots, k, j);
      if empty.None? { return None; }
      SlotSet(slots, empty.value, Islot(1, j));
      slots := slots[empty.value := Islot(1, j)];
      icache := icache - {j};
      r := empty;
    }

    /** One more reference to the inode in slot `i`. */
    method Idup(i: nat)
      requires SlotsOk(slots) && i < NINODE && slots[i].refs > 0
      modifies `slots
      ensures SlotsOk(slots) && forall k :: RefsTo(slots, k) == old(RefsTo(slots, k)) + if k == old(slots)[i].inum then 1 else 0
    {
      SlotSet(slots, i, slots[i].(refs := slots[i].refs + 1));
      slots := slots[i := slots[i].(refs := slots[i].refs + 1)];
    }

    /** Drop a reference to the inode in slot `i`; with the last one, an inode that has no links is truncated and freed. */
    method Iput(i: nat)
      requires Valid({}) && SlotsOk(slots) && i < NINODE && slots[i].refs > 0 && slots[i].inum < |nodes|
      modifies this
      ensures Valid({}) && SlotsOk(slots)
      ensures forall k :: RefsTo(slots, k) == old(RefsTo(slots, k)) - if k == old(slots)[i].inum then 1 else 0
      ensures var j := old(slots)[i].inum; old(RefsTo(slots, j)) == 1 && j in old(icache) && old(nodes[slots[i].inum]).nlink == 0 ==>
        && |nodes| == |old(nodes)| && icache.Keys == old(icache.Keys) - {j}
        && nodes[j] == old(nodes[slots[i].inum]).(kind := 0, size := 0, addrs := NoAddrs())
        && (forall b :: b in owner ==> owner[b].j != j && b in old(owner) && owner[b] == old(owner)[b])
        && (forall b :: b in old(owner) && old(owner)[b].j != j ==> b in owner)
        && Shaped(old(Now())) && Shaped(Now()) && OthersKept(old(Now()), Now(), j)
      ensures var j := old(slots)[i].inum; !(old(RefsTo(slots, j)) == 1 && j in old(icache) && old(nodes[slots[i].inum]).nlink == 0) ==>
        Now() == old(Now()) && icache == old(icache) && logged == old(logged)
    {
      hide Inv, SameSlots, SameData;
      var j := slots[i].inum;
      assert InSlot(slots, i, j);
      SlotSet(slots, i, slots[i].(refs := slots[i].refs - 1));
      if slots[i].refs == 1 && j in icache && icache[j].nlink == 0 { FreeInode(j); }
      slots := slots[i := slots[i].(refs := slots[i].refs - 1)];
    }

    /** The part of `iput` that frees the inode. */
    method FreeInode(j: nat)
      requires Valid({}) && j in icache
      modifies `disk, `icache, `nodes, `owner, `logged
      ensures Valid({}) && |nodes| == |old(nodes)| && icache.Keys == old(icache.Keys) - {j}
      ensures nodes[j] == old(nodes[j]).(kind := 0, size := 0, addrs := NoAddrs())
      ensures forall b :: b in owner ==> owner[b].j != j && b in old(owner) && owner[b] == old(owner)[b]
      ensures forall b :: b in old(owner) && old(owner)[b].j != j ==> b in owner
      ensures Shaped(old(Now())) && Shaped(Now()) && OthersKept(old(Now()), Now(), j)
    {
      hide Inv, SameSlots, SameData;
      AheadMore(Now(), {}, {j});
      ghost var t := Now();
      InvShaped(t, {}, {});
      Itrunc(j);
      InvShaped(Now(), {}, {});
      ShedOwner(t, Now(), j);
      ghost var u := Now();
      var d := icache[j].(kind := 0);
      icache := icache - {j};
      SetKind(j, d);
      InvShaped(Now(), {}, {});
      OthersShed(t, u, Now(), j);
    }

    // ---- a write as the system call makes it ----

    /** One transaction of `filewrite`: at most 3072 bytes, which keeps it within its reservation. */
    method WriteOp(j: nat, part: seq<Byte>, off: nat, limit: nat) returns (r: Option<int>, ghost done: nat)
      requires Valid({}) && j < |nodes| && nodes[j].kind != 0 && off < WORD && |part| <= 3072
      modifies `disk, `icache, `nodes, `owner, `logged
      ensures off > old(nodes[j]).size || off + |part| > MAXBYTES ==>
        r == Some(-1) && Valid({}) && disk == old(disk) && nodes == old(nodes) && owner == old(owner) && logged == {}
      ensures r.None? ==> Shaped(Now()) && forall b: nat :: b < sb.size ==> BitAt(disk, sb, b)
      ensures off <= old(nodes[j]).size && off + |part| <= MAXBYTES && r.Some? ==>
        && Valid({}) && done <= |part| && Stored(old(Now()), Now(), j, off, part[..done])
        && (if limit >= |part| then done == |part| else done <= limit < done + BSIZE)
        && r.value == if done == |part| then |part| else -1
      ensures r.Some? && sb.size <= BPB ==> |logged| <= 7 <= LogDisk.MAXOPBLOCKS
    {
      hide Inv, OnlyLogged, Stored, BitAt;
      logged := {};
      Ilock(j);
      r, done := Writei(j, part, off, limit);
      if r.Some? && off <= old(nodes[j]).size && off + |part| <= MAXBYTES {
        ChunkBlocks(off, |part|);
        if sb.size <= BPB { LoggedFew(Now(), j, off / BSIZE, BlockEnd(off + |part|), logged); }
      }
    }

    /**
     `filewrite` on an inode: chunk after chunk, each a transaction of its own. It returns the number
     of bytes when all were written and -1 when a chunk was not, with the new offset. Every chunk that
     does not fail is written whole, so the panic for a short write is out of reach.
     */
    method FileWrite(j: nat, src: seq<Byte>, off: nat, limit: nat) returns (r: Option<int>, off': nat, ghost done: nat)
      requires Valid({}) && j < |nodes| && nodes[j].kind != 0 && off < WORD
      modifies `disk, `icache, `nodes, `owner, `logged
      ensures r.Some? ==> Valid({}) && done <= |src| && r.value == if done == |src| then |src| else -1
      ensures r.Some? && off <= old(nodes[j]).size ==> Stored(old(Now()), Now(), j, off, src[..done])
      ensures r.Some? && off > old(nodes[j]).size ==> done == 0 && nodes == old(nodes) && disk == old(disk)
      ensures r.Some? && off <= old(nodes[j]).size && off + |src| <= MAXBYTES && limit >= |src| ==> done == |src|
      ensures r.Some? && off <= old(nodes[j]).size && done < |src| ==>
        done <= limit && off + done <= MAXBYTES && (limit < done + BSIZE || MAXBYTES < off + done + 3072)
      ensures r.None? ==> Shaped(Now()) && forall b: nat :: b < sb.size ==> BitAt(disk, sb, b)
      ensures r.Some? ==> off' == off + WholeChunks(done, |src|)
    {
      hide Inv, Stored, AtChunk, WholeChunks, BitAt, Shaped, Cached;
      ghost var t := Now();
      InvShaped(t, {}, {});
      FirstChunk(|src|);
      var i := 0;
      off', done := off, 0;
      if off <= old(nodes[j]).size { StoredNothing(t, j, off, src); }
      while i < |src|
        invariant 0 <= i <= |src| && off' == off + i && done == i && off' < WORD
        invariant AtChunk(i, |src|)
        invariant Valid({}) && Shaped(Now()) && j < |nodes| && nodes[j].kind != 0
        invariant off <= old(nodes[j]).size ==> Stored(t, Now(), j, off, src[..i]) && off' <= nodes[j].size <= MAXBYTES && i <= limit
        invariant off > old(nodes[j]).size ==> i == 0 && nodes == old(nodes) && disk == old(disk)
      {
        var n1 := Min(|src| - i, MAXCHUNK);
        NextChunk(i, |src|);
        ghost var u := Now();
        ghost var d;
        r, d := WriteOp(j, src[i..i + n1], off', if limit > i then limit - i else 0);
        if r.None? { return; }
        InvShaped(Now(), {}, {});
        if off <= t.nodes[j].size && off' + n1 <= MAXBYTES { ChunkStored(t, u, Now(), j, off, src, i, n1, d); }
        if r.value < 0 {
          done := if off <= t.nodes[j].size && off' + n1 <= MAXBYTES then i + d else i;
          ChunkStopped(i, done - i, |src|);
          return Some(-1), off', done;
        }
        assert r.value == n1;
        off' := off' + r.value;
        i := i + r.value;
        done := i;
      }
      r := Some(|src|);
      assert src[..i] == src;
    }
  }

  /** A slot changes its count, or a free one takes in an inode that is in no slot. */
  lemma SlotSet(slots: seq<Islot>, i: nat, x: Islot)
    requires SlotsOk(slots) && i < NINODE
    requires if slots[i].refs > 0 then x.inum == slots[i].inum else forall k :: !InSlot(slots, k, x.inum)
    ensures SlotsOk(slots[i := x])
    ensures forall j :: RefsTo(slots[i := x], j) == if j == x.inum then x.refs else RefsTo(slots, j)
    ensures RefsTo(slots, x.inum) == slots[i].refs
  {
    var t := slots[i := x];
    forall k: nat, j | k != i ensures InSlot(t, k, j) <==> InSlot(slots, k, j) { }
    assert slots[i].refs > 0 ==> InSlot(slots, i, x.inum);
    assert x.refs > 0 ==> InSlot(t, i, x.inum);
    RefsAt(slots, i, x.inum);
    RefsAt(t, i, x.inum);
    forall j ensures RefsTo(t, j) == if j == x.inum then x.refs else RefsTo(slots, j) {
      if j != x.inum {
        if k: nat :| InSlot(slots, k, j) {
          assert k != i && InSlot(t, k, j);
          RefsAt(slots, k, j);
          RefsAt(t, k, j);
        } else {
          assert forall k: nat :: !InSlot(t, k, j);
        }
      }
    }
  }

  lemma RefsAt(slots: seq<Islot>, i: nat, j: nat)
    requires SlotsOk(slots) && i < NINODE && (InSlot(slots, i, j) || (slots[i].refs == 0 && forall k: nat :: k != i ==> !InSlot(slots, k, j)))
    ensures RefsTo(slots, j) == slots[i].refs
  {
  }

  lemma SliceMore(c: seq<Byte>, off: nat, tot: nat, m: nat)
    requires off + tot + m <= |c|
    ensures c[off..off + tot] + c[off + tot..off + tot + m] == c[off..off + tot + m]
  {
  }

  /** Position `i` of `n` bytes is their end or the start of a chunk. */
  ghost predicate AtChunk(i: nat, n: nat) {
    i <= n && (i < n ==> i % 3072 == 0)
  }

  /** How far the offset of the file moves when `done` of `n` bytes were stored: by whole chunks only. */
  ghost function WholeChunks(done: nat, n: nat): int {
    if done == n then n else done - done % 3072
  }

  lemma FirstChunk(n: nat)
    ensures AtChunk(0, n) && WholeChunks(n, n) == n
  {
  }

  lemma NextChunk(i: nat, n: nat)
    requires AtChunk(i, n) && i < n
    ensures AtChunk(i + Min(n - i, MAXCHUNK), n)
  {
  }

  lemma ChunkStopped(i: nat, d: nat, n: nat)
    requires AtChunk(i, n) && d < Min(n - i, MAXCHUNK)
    ensures WholeChunks(i + d, n) == i
  {
  }

  /** The first block that the bitmap does not mark. */
  ghost predicate FirstUnmarked(disk: Disk, sb: Superblock, b: nat)
    requires |disk| == sb.size && sb.Ok()
  {
    b < sb.size && !BitAt(disk, sb, b) && forall x: nat :: x < b ==> BitAt(disk, sb, x)
  }

  /** Inodes other than `j` and their blocks are as before. */
  ghost predicate OthersKept(t: Fsys, u: Fsys, j: nat)
    requires Shaped(t) && Shaped(u)
  {
    && |u.nodes| == |t.nodes|
    && (forall k :: 0 <= k < |t.nodes| && k != j ==> u.nodes[k] == t.nodes[k])
    && (forall k: nat, bn: nat :: k < |t.nodes| && k != j && bn < MAXFILE ==> DataOf(u, k, bn) == DataOf(t, k, bn))
  }

  lemma OthersShed(t: Fsys, u: Fsys, v: Fsys, j: nat)
    requires Shaped(t) && Shaped(u) && Shaped(v) && Shed(t, u, j) && SameData(u, v)
    requires |v.nodes| == |u.nodes| && forall k :: 0 <= k < |u.nodes| && k != j ==> v.nodes[k] == u.nodes[k]
    ensures OthersKept(t, v, j)
  {
    hide DataOf;
  }

  lemma SameValue(t: Fsys, u: Fsys, j: nat, i: nat)
    requires Shaped(t) && Shaped(u) && SameSlots(t, u) && j < |t.nodes| && i < SLOTS
    ensures Value(u, j, i) == Value(t, j, i)
  {
  }

  /** The blocks that hold the bitmap. */
  ghost function Bitmap(sb: Superblock): set<nat> {
    Below(sb.bmapstart + (sb.size + BPB - 1) / BPB) - Below(sb.bmapstart)
  }

  lemma InBitmap(sb: Superblock, b: nat)
    requires b < sb.size
    ensures BBlock(b, sb) in Bitmap(sb)
  {
  }

  /** What a slot names is a data block. */
  lemma InvValue(t: Fsys, j: nat, i: nat, ahead: set<nat>)
    requires Inv(t, ahead, {}) && j < |t.nodes| && i < SLOTS && Value(t, j, i) != 0
    ensures t.sb.DataStart() <= Value(t, j, i) < t.sb.size
  {
  }

  lemma EntryNeedsPointer(t: Fsys, j: nat, i: nat)
    requires Shaped(t) && j < |t.nodes| && NDIRECT < i < SLOTS
    ensures Value(t, j, i) != 0 ==> Value(t, j, NDIRECT) != 0
  {
    hide Word;
  }

  lemma PointerValue(t: Fsys, j: nat)
    requires Shaped(t) && j < |t.nodes|
    ensures Value(t, j, NDIRECT) == t.nodes[j].addrs[NDIRECT]
  {
  }

  lemma GrewValue(t: Fsys, u: Fsys, j: nat, i: nat, n: nat)
    requires Shaped(t) && Shaped(u) && Grew(t, u, j, i) && j < |t.nodes| && n < SLOTS && Value(t, j, n) != 0
    ensures Value(u, j, n) == Value(t, j, n)
  {
  }

  /** Part of the way through `itrunc` of inode `j`, which began in state `t`. */
  ghost predicate Trunc(t: Fsys, u: Fsys, j: nat, loose: set<nat>) {
    Shaped(t) && Inv(u, {j}, loose) && Shed(t, u, j) && u.nodes[j].kind != 0
  }

  lemma TruncShaped(t: Fsys, u: Fsys, j: nat, loose: set<nat>)
    requires Trunc(t, u, j, loose)
    ensures Shaped(t) && Shaped(u) && j < |u.nodes| && |u.nodes| == |t.nodes|
    ensures u.nodes[j].size == 0 && u.nodes[j].kind != 0
  {
    hide Tree, Marked, Saved, Loose;
  }

  lemma LooseFreed(t: Fsys, u: Fsys, j: nat, loose: set<nat>, b: nat)
    requires Trunc(t, u, j, loose) && b in loose
    ensures Shaped(u) && b < u.sb.size && BitAt(u.disk, u.sb, b) && Trunc(t, PutBitAt(u, b, false), j, loose - {b})
  {
    hide Inv, BitAt, Shed, SameData, SameSlots, Bit, PutBit;
    InvLoose(u, {j}, loose, b);
    UnmarkOk(u, b, {j}, loose);
    InvShaped(PutBitAt(u, b, false), {j}, loose - {b});
    ShedSame(t, u, PutBitAt(u, b, false), j);
  }

  lemma TruncDrained(t: Fsys, u: Fsys, v: Fsys, j: nat, gone: set<nat>)
    requires Trunc(t, u, j, {}) && Shaped(v) && Shaped(u) && Drained(u, v, j, gone)
    ensures Trunc(t, v, j, gone)
  {
    TruncShaped(t, u, j, {});
    InvNamed(u, {j}, {});
    hide Inv, Shed, Drained;
    DrainedInv(u, v, j, gone, {j}, {});
    assert {} + gone == gone;
    ShedDrained(t, u, v, j, gone);
  }

  /** Emptying a direct slot and freeing its block. */
  lemma DetachFreed(t: Fsys, u: Fsys, j: nat, i: nat)
    requires Trunc(t, u, j, {}) && Shaped(u) && j < |u.nodes| && i < NDIRECT && u.nodes[j].addrs[i] != 0
    ensures var b, v := u.nodes[j].addrs[i], Detach(u, j, i);
      b < u.sb.size && BitAt(u.disk, u.sb, b) && Shaped(v) && Trunc(t, PutBitAt(v, b, false), j, {})
  {
    var b, v := u.nodes[j].addrs[i], Detach(u, j, i);
    InvNamed(u, {j}, {});
    hide Trunc, BitAt, Drained, PutBitAt;
    DetachOk(u, j, i);
    TruncDrained(t, u, v, j, {b});
    LooseFreed(t, v, j, {b}, b);
    assert {b} - {b} == {};
  }

  /** Emptying an indirect slot leaves its block and entries loose. */
  lemma DetachedIndirect(t: Fsys, u: Fsys, j: nat)
    requires Trunc(t, u, j, {}) && Shaped(u) && j < |u.nodes| && u.nodes[j].addrs[NDIRECT] != 0
    ensures u.nodes[j].addrs[NDIRECT] < |u.disk|
    ensures var x := u.nodes[j].addrs[NDIRECT]; Trunc(t, DetachIndirect(u, j), j, {x} + Entries(u.disk[x], 0))
  {
    var x := u.nodes[j].addrs[NDIRECT];
    InvNamed(u, {j}, {});
    PointerValue(u, j);
    assert x in u.owner;
    hide Trunc, Drained, Entries;
    DetachIndirectOk(u, j);
    TruncDrained(t, u, DetachIndirect(u, j), j, {x} + Entries(u.disk[x], 0));
  }

  lemma EntriesStep(t: Fsys, u: Fsys, j: nat, n: nat)
    requires Trunc(t, u, j, {}) && j < |u.nodes| && |u.nodes[j].addrs| > NDIRECT && 0 < u.nodes[j].addrs[NDIRECT] < |u.disk| && n < NINDIRECT
    ensures var x := u.nodes[j].addrs[NDIRECT];
      var w, e, e' := Word(u.disk[x], n), {x} + Entries(u.disk[x], n), {x} + Entries(u.disk[x], n + 1);
      (w == 0 ==> e' == e) && (w != 0 ==> w in e && e' == e - {w})
  {
    InvNamed(u, {j}, {});
    EntriesApart(u, j, n);
    hide Word, Inv, Shed;
    var x := u.nodes[j].addrs[NDIRECT];
    assert Entries(u.disk[x], n) == (if Word(u.disk[x], n) == 0 then {} else {Word(u.disk[x], n)}) + Entries(u.disk[x], n + 1);
  }

  lemma EntriesEnd(u: Fsys, j: nat)
    requires j < |u.nodes| && |u.nodes[j].addrs| > NDIRECT && u.nodes[j].addrs[NDIRECT] < |u.disk|
    ensures Entries(u.disk[u.nodes[j].addrs[NDIRECT]], NINDIRECT) == {}
  {
  }

  function NoAddrs(): (a: seq<nat>)
    ensures |a| == NDIRECT + 1 && forall i :: 0 <= i <= NDIRECT ==> a[i] == 0
  {
    [0, 0, 0, 0, 0, 0, 0, 0, 0, 0, 0, 0, 0]
  }

  lemma TruncBegins(t: Fsys, j: nat)
    requires Inv(t, {j}, {}) && j < |t.nodes| && t.nodes[j].kind != 0
    ensures Trunc(t, WithSize(t, j, 0), j, {})
  {
    SizeOk(t, j, 0, {j}, {});
    hide Inv, DataOf;
  }

  lemma TruncEnds(t: Fsys, u: Fsys, j: nat)
    requires Trunc(t, u, j, {}) && j < |u.nodes| && |u.nodes[j].addrs| == NDIRECT + 1
    requires forall i :: 0 <= i <= NDIRECT ==> u.nodes[j].addrs[i] == 0
    ensures Inv(u, {j}, {}) && Shed(t, u, j) && forall b :: b in u.owner ==> u.owner[b].j != j
    ensures u.nodes[j] == t.nodes[j].(size := 0, addrs := NoAddrs())
  {
    InvNamed(u, {j}, {});
    OwnsNothing(u, j);
    assert u.nodes[j].addrs == NoAddrs();
    hide Inv;
  }

  lemma ShedSaved(t: Fsys, u: Fsys, v: Fsys, j: nat)
    requires Shaped(t) && Shaped(u) && Inv(v, {j} - {j}, {}) && Shed(t, u, j) && SameData(u, v)
    requires v.nodes == u.nodes && v.owner == u.owner && v.sb == u.sb
    ensures Shed(t, v, j) && Inv(v, {}, {})
  {
    InvShaped(v, {j} - {j}, {});
    ShedSame(t, u, v, j);
    assert {j} - {j} == {};
  }

  function Min(a: nat, b: nat): nat {
    if a < b then a else b
  }

  lemma InvComplete(t: Fsys, j: nat)
    requires Inv(t, {}, {}) && j < |t.nodes|
    ensures Shaped(t) && t.nodes[j].size <= MAXBYTES
  {
  }

  lemma AheadMore(t: Fsys, ahead: set<nat>, more: set<nat>)
    requires Inv(t, ahead, {}) && ahead <= more
    ensures Inv(t, more, {})
  {
    hide Tree, Marked, NodeAt;
  }

  lemma InvBlock(t: Fsys, j: nat, bn: nat)
    requires Inv(t, {}, {}) && j < |t.nodes| && bn * BSIZE < t.nodes[j].size
    ensures Shaped(t) && bn < MAXFILE && Value(t, j, Index(bn)) != 0 && Value(t, j, Index(bn)) < |t.disk|
    ensures DataOf(t, j, bn) == t.disk[Value(t, j, Index(bn))]
  {
    hide Value;
    assert t.nodes[j].size <= MAXFILE * BSIZE;
  }

  lemma BlockBytes(t: Fsys, j: nat, o: nat, m: nat)
    requires Shaped(t) && j < |t.nodes| && t.nodes[j].size <= MAXBYTES && o + m <= t.nodes[j].size && m <= BSIZE - o % BSIZE && o < MAXBYTES
    ensures DataOf(t, j, o / BSIZE)[o % BSIZE..o % BSIZE + m] == Content(t, j)[o..o + m]
  {
    hide DataOf;
    var a, c := DataOf(t, j, o / BSIZE)[o % BSIZE..o % BSIZE + m], Content(t, j)[o..o + m];
    forall i | 0 <= i < m ensures a[i] == c[i] {
      assert c[i] == ByteAt(t, j, o + i);
      assert (o + i) / BSIZE == o / BSIZE && (o + i) % BSIZE == o % BSIZE + i;
    }
  }

  // ---- what a write logs ----

  /** The first block not needed for the first `n` bytes of a file. */
  function BlockEnd(n: nat): nat {
    (n + BSIZE - 1) / BSIZE
  }

  /** A block is among the first `BlockEnd(n)` exactly when it holds one of the first `n` bytes. */
  lemma BlockEndIs(n: nat, bn: nat)
    ensures bn < BlockEnd(n) <==> bn * 1024 < n
  {
  }

  lemma InRange(off: nat, n: nat, o: nat)
    requires off <= o < off + n <= MAXBYTES
    ensures off / BSIZE <= o / BSIZE < BlockEnd(off + n) && o / BSIZE < MAXFILE
  {
  }

  /** Slot `i` is the indirect pointer or that of a block from `lo` to `hi`. */
  predicate InSlots(i: nat, lo: nat, hi: nat) {
    i == NDIRECT || lo <= (if i < NDIRECT then i else i - 1) < hi
  }

  /** Besides what was logged before: bitmap blocks, the inode's block, its indirect block and its blocks from `lo` to `hi`. */
  ghost predicate OnlyLogged(t: Fsys, j: nat, lo: nat, hi: nat, before: set<nat>, logged: set<nat>) {
    forall b :: b in logged ==>
      b in before || b in Bitmap(t.sb) || b == IBlock(j, t.sb) || (b in t.owner && t.owner[b].j == j && InSlots(t.owner[b].i, lo, hi))
  }

  /** What a slot names, it owns. */
  lemma InvOwner(t: Fsys, j: nat, i: nat, ahead: set<nat>)
    requires Inv(t, ahead, {}) && j < |t.nodes| && i < SLOTS && Value(t, j, i) != 0
    ensures Value(t, j, i) in t.owner && t.owner[Value(t, j, i)] == Slot(j, i)
  {
    hide Value, Marked, Saved, Complete, OwnersName;
  }

  lemma GrewOwner(u: Fsys, v: Fsys, j: nat, i: nat)
    requires Shaped(u) && Shaped(v) && Grew(u, v, j, i)
    ensures u.sb == v.sb && forall b :: b in u.owner ==> b in v.owner && v.owner[b] == u.owner[b]
  {
    hide Value, SameData;
  }

  lemma LogMore(u: Fsys, v: Fsys, j: nat, lo: nat, hi: nat, before: set<nat>, l0: set<nat>, l1: set<nat>, more: set<nat>)
    requires u.sb == v.sb && (forall b :: b in u.owner ==> b in v.owner && v.owner[b] == u.owner[b])
    requires OnlyLogged(u, j, lo, hi, before, l0) && l1 <= l0 + Bitmap(v.sb) + more
    requires forall b :: b in more ==> b in v.owner && v.owner[b].j == j && InSlots(v.owner[b].i, lo, hi)
    ensures OnlyLogged(v, j, lo, hi, before, l1)
  {
    hide InSlots, Bitmap, IBlock;
  }

  lemma LogMapped(u: Fsys, v: Fsys, j: nat, lo: nat, hi: nat, bn: nat, before: set<nat>, l0: set<nat>, l1: set<nat>)
    requires Shaped(u) && Inv(v, {j}, {}) && Grew(u, v, j, Index(bn)) && j < |v.nodes| && lo <= bn < hi && bn < MAXFILE
    requires Value(v, j, Index(bn)) != 0 && OnlyLogged(u, j, lo, hi, before, l0)
    requires l1 <= l0 + Bitmap(v.sb) + {Value(v, j, Index(bn))} + if bn < NDIRECT then {} else {Value(v, j, NDIRECT)}
    ensures OnlyLogged(v, j, lo, hi, before, l1)
  {
    hide Inv, Grew, Value, OnlyLogged, Bitmap;
    InvShaped(v, {j}, {});
    InvOwner(v, j, Index(bn), {j});
    GrewOwner(u, v, j, Index(bn));
    if bn >= NDIRECT {
      EntryNeedsPointer(v, j, Index(bn));
      InvOwner(v, j, NDIRECT, {j});
    }
    var more := {Value(v, j, Index(bn))} + if bn < NDIRECT then {} else {Value(v, j, NDIRECT)};
    LogMore(u, v, j, lo, hi, before, l0, l1, more);
  }

  lemma LogAgain(u: Fsys, v: Fsys, j: nat, lo: nat, hi: nat, bn: nat, before: set<nat>, l0: set<nat>, l1: set<nat>)
    requires Inv(u, {j}, {}) && v.owner == u.owner && v.sb == u.sb && j < |u.nodes| && lo <= bn < hi && bn < MAXFILE
    requires Value(u, j, Index(bn)) != 0 && OnlyLogged(u, j, lo, hi, before, l0) && l1 == l0 + {Value(u, j, Index(bn))}
    ensures OnlyLogged(v, j, lo, hi, before, l1)
  {
    hide Inv, Value, OnlyLogged, Bitmap;
    InvShaped(u, {j}, {});
    InvOwner(u, j, Index(bn), {j});
    LogMore(u, v, j, lo, hi, before, l0, l1, {Value(u, j, Index(bn))});
  }

  lemma WriteBegins(t: Fsys, j: nat, off: nat, src: seq<Byte>, logged: set<nat>)
    requires Inv(t, {}, {}) && j < |t.nodes| && off <= t.nodes[j].size
    ensures Inv(t, {j}, {}) && Written(t, t, j, off, src, 0) && Stored(t, t, j, off, src[..0])
    ensures OnlyLogged(t, j, off / BSIZE, BlockEnd(off + |src|), logged, logged)
  {
    AheadMore(t, {}, {j});
    WrittenNone(t, j, off, src);
    StoredNone(t, j, off);
    assert src[..0] == [];
    hide *;
  }

  lemma WrittenSize(t: Fsys, u: Fsys, j: nat, off: nat, src: seq<Byte>, tot: nat)
    requires Inv(t, {}, {}) && Inv(u, {j}, {}) && Written(t, u, j, off, src, tot) && off <= t.nodes[j].size && off + |src| <= MAXBYTES
    requires u.nodes[j].kind != 0
    ensures var size := Max(t.nodes[j].size, off + tot);
      Shaped(t) && Shaped(u) && |t.nodes| == |u.nodes| && Inv(WithSize(u, j, size), {j}, {}) && u.nodes[j].size == t.nodes[j].size && size < WORD
  {
    var size := Max(t.nodes[j].size, off + tot);
    forall bn: nat | bn < MAXFILE && bn * BSIZE < size ensures Value(u, j, Index(bn)) != 0 { WrittenBlocks(t, u, j, off, src, tot, bn); }
    hide Value, Named, OwnersName, Marked, Saved, ByteAt, DataOf;
    SizeOk(u, j, size, {j}, {});
  }

  lemma WriteEnds(t: Fsys, u: Fsys, v: Fsys, j: nat, off: nat, src: seq<Byte>, tot: nat)
    requires Inv(t, {}, {}) && Shaped(u) && Inv(v, {j} - {j}, {}) && Written(t, u, j, off, src, tot)
    requires off <= t.nodes[j].size && off + |src| <= MAXBYTES
    requires v.nodes == WithSize(u, j, Max(t.nodes[j].size, off + tot)).nodes && v.sb == u.sb
    requires Shaped(WithSize(u, j, Max(t.nodes[j].size, off + tot))) && SameData(WithSize(u, j, Max(t.nodes[j].size, off + tot)), v)
    ensures Stored(t, v, j, off, src[..tot]) && Inv(v, {}, {})
  {
    assert {j} - {j} == {};
    InvShaped(v, {}, {});
    WrittenStored(t, u, v, j, off, src, tot);
    hide *;
  }

  lemma LogSaved(u: Fsys, v: Fsys, j: nat, lo: nat, hi: nat, before: set<nat>, l0: set<nat>, l1: set<nat>)
    requires v.sb == u.sb && v.owner == u.owner && OnlyLogged(u, j, lo, hi, before, l0) && l1 == l0 + {IBlock(j, u.sb)}
    ensures OnlyLogged(v, j, lo, hi, before, l1)
  {
  }

  /** What `filewrite` writes at most in one transaction: room is left for the inode, the indirect block and slop. */
  const MAXCHUNK := (LogDisk.MAXOPBLOCKS - 1 - 1 - 2) / 2 * BSIZE

  lemma ChunkBlocks(off: nat, n: nat)
    requires n <= MAXCHUNK
    ensures BlockEnd(off + n) <= off / BSIZE + 4
  {
  }

  /** The blocks of a file from `lo` to `hi`. */
  ghost function FileBlocks(t: Fsys, j: nat, lo: nat, hi: nat): (s: set<nat>)
    requires Shaped(t) && j < |t.nodes|
    ensures |s| <= if lo < hi then hi - lo else 0
  {
    if lo >= hi then {}
    else FileBlocks(t, j, lo, hi - 1) + if hi - 1 < MAXFILE then {Value(t, j, Index(hi - 1))} else {}
  }

  lemma {:induction false} InFileBlocks(t: Fsys, j: nat, lo: nat, hi: nat, bn: nat)
    requires Shaped(t) && j < |t.nodes| && lo <= bn < hi && bn < MAXFILE
    ensures Value(t, j, Index(bn)) in FileBlocks(t, j, lo, hi)
  {
    hide Value;
    if bn < hi - 1 { InFileBlocks(t, j, lo, hi - 1, bn); }
  }

  lemma OwnedInFile(t: Fsys, j: nat, lo: nat, hi: nat, b: nat)
    requires Shaped(t) && OwnersName(t) && j < |t.nodes| && b in t.owner && t.owner[b].j == j && InSlots(t.owner[b].i, lo, hi)
    ensures b == Value(t, j, NDIRECT) || b in FileBlocks(t, j, lo, hi)
  {
    hide Value, FileBlocks;
    var i := t.owner[b].i;
    if i != NDIRECT { InFileBlocks(t, j, lo, hi, if i < NDIRECT then i else i - 1); }
  }

  /** When one bitmap block covers the disk, a write of `hi - lo` blocks logs at most three more. */
  lemma LoggedFew(t: Fsys, j: nat, lo: nat, hi: nat, logged: set<nat>)
    requires Inv(t, {}, {}) && j < |t.nodes| && OnlyLogged(t, j, lo, hi, {}, logged) && t.sb.size <= BPB
    ensures |logged| <= 3 + if lo < hi then hi - lo else 0
  {
    hide Inv, Value, IBlock, Bitmap, FileBlocks, InSlots;
    InvNamed(t, {}, {});
    OneBitmapBlock(t.sb);
    var a, c, d, files := t.sb.bmapstart, IBlock(j, t.sb), Value(t, j, NDIRECT), FileBlocks(t, j, lo, hi);
    forall b | b in logged ensures b in {a, c, d} + files {
      if b != a && b != c { OwnedInFile(t, j, lo, hi, b); }
    }
    SubsetSize(logged, {a, c, d} + files);
    hide *;
    assert |{a, c, d}| <= 3;
  }

  lemma OneBitmapBlock(sb: Superblock)
    requires 0 < sb.size <= BPB
    ensures Bitmap(sb) == {sb.bmapstart}
  {
  }

  lemma InvSaved(t: Fsys, j: nat)
    requires Inv(t, {}, {}) && j < t.sb.ninodes
    ensures Shaped(t) && j < |t.nodes| && NodeAt(t.disk, t.sb, j) == t.nodes[j] && (t.nodes[j].kind == 0 ==> Empty(t.nodes[j]))
  {
    hide NodeAt, Named, OwnersName, Complete, Marked;
  }

  lemma ShedOwner(t: Fsys, u: Fsys, j: nat)
    requires Shaped(t) && Shaped(u) && Shed(t, u, j)
    ensures |u.nodes| == |t.nodes| && (forall b :: b in u.owner ==> b in t.owner && u.owner[b] == t.owner[b])
    ensures forall b :: b in t.owner && t.owner[b].j != j ==> b in u.owner
  {
    hide DataOf;
  }

  lemma StoredNothing(t: Fsys, j: nat, off: nat, src: seq<Byte>)
    requires Inv(t, {}, {}) && j < |t.nodes| && off <= t.nodes[j].size
    ensures Stored(t, t, j, off, src[..0])
  {
    StoredNone(t, j, off);
    assert src[..0] == [];
  }

  lemma ChunkStored(t: Fsys, u: Fsys, v: Fsys, j: nat, off: nat, src: seq<Byte>, i: nat, n: nat, d: nat)
    requires Shaped(t) && Shaped(u) && Shaped(v) && i + n <= |src| && d <= n
    requires Stored(t, u, j, off, src[..i]) && Stored(u, v, j, off + i, src[i..i + n][..d])
    ensures Stored(t, v, j, off, src[..i + d]) && j < |v.nodes| == |t.nodes|
    ensures off + i + d <= v.nodes[j].size <= MAXBYTES && v.nodes[j].kind == t.nodes[j].kind
  {
    StoredTwice(t, u, v, j, off, src[..i], src[i..i + n][..d]);
    assert src[..i] + src[i..i + n][..d] == src[..i + d];
    hide Content, Spliced;
  }

  lemma InvNamed(t: Fsys, ahead: set<nat>, loose: set<nat>)
    requires Inv(t, ahead, loose)
    ensures Shaped(t) && Named(t) && OwnersName(t)
  {
  }

  lemma InvLoose(t: Fsys, ahead: set<nat>, loose: set<nat>, b: nat)
    requires Inv(t, ahead, loose) && b in loose
    ensures Shaped(t) && b < t.sb.size && BitAt(t.disk, t.sb, b)
  {
  }

  lemma InvShaped(t: Fsys, ahead: set<nat>, loose: set<nat>)
    requires Inv(t, ahead, loose)
    ensures Shaped(t)
  {
  }

  lemma BitNumber(sb: Superblock, b: nat, bi: nat)
    requires b % BPB == 0 && bi < BPB
    ensures (b + bi) % BPB == bi && BBlock(b + bi, sb) == BBlock(b, sb)
  {
  }

  /** A clear bit is that of a data block. */
  lemma DataBit(t: Fsys, b: nat, ahead: set<nat>)
    requires Inv(t, ahead, {}) && b < t.sb.size && !BitAt(t.disk, t.sb, b)
    ensures t.sb.DataStart() <= b && b !in t.owner
  {
  }

  lemma SameTwice(t: Fsys, u: Fsys, v: Fsys)
    requires Shaped(t) && Shaped(u) && Shaped(v)
    requires SameSlots(t, u) && SameData(t, u) && SameSlots(u, v) && SameData(u, v)
    ensures SameSlots(t, v) && SameData(t, v)
  {
    hide Value, DataOf;
  }
}
