/**
 The buffer cache of `kernel/bio.c`: NBUF buffers on an LRU ring, found by block number and
 recycled when unreferenced. The disk is a sequence of atomic blocks; each `bwrite` replaces one
 of them and is recorded in `history`, so that a crash between two writes can be spoken of.
 */
module BufferCache {
  import opened Options
  import opened Counting
  import opened Lists

  /** BSIZE bytes, seen as 32-bit words. */
  const BWORDS := 256
  const NBUF := 30
  const ROOTDEV := 1

  type Block = b: seq<nat> | |b| == BWORDS witness seq(BWORDS, _ => 0)
  type Disk = seq<Block>

  datatype Buf = Buf(valid: bool, dev: nat, blockno: nat, locked: bool, refcnt: nat, data: Block)

  ghost predicate Holds(bufs: seq<Buf>, i: nat, b: nat) {
    i < |bufs| && bufs[i].dev == ROOTDEV && bufs[i].blockno == b
  }

  ghost predicate Cached(bufs: seq<Buf>, b: nat) {
    exists i :: Holds(bufs, i, b)
  }

  /** The buffer that caches block `b`; unique in a well-formed cache. */
  ghost function BufOf(bufs: seq<Buf>, b: nat): (i: nat)
    requires Cached(bufs, b)
    ensures Holds(bufs, i, b)
  {
    var i :| Holds(bufs, i, b);
    i
  }

  /** What a process that locks block `b` sees: the cached copy if it is valid, else the disk. */
  ghost function View(bufs: seq<Buf>, disk: Disk, b: nat): Block
    requires b < |disk|
  {
    if Cached(bufs, b) && bufs[BufOf(bufs, b)].valid then bufs[BufOf(bufs, b)].data else disk[b]
  }

  ghost predicate BufOk(buf: Buf, pins: nat, disk: Disk) {
    && (buf.dev == 0 || buf.dev == ROOTDEV)
    && (buf.dev == 0 ==> !buf.valid && buf.refcnt == 0)
    && (buf.dev == ROOTDEV ==> buf.blockno < |disk|)
    && buf.refcnt >= pins + (if buf.locked then 1 else 0)
    && (pins > 0 ==> buf.valid)
    // Coherence: only a lock holder or a pin may keep a buffer different from the disk.
    && (buf.valid && !buf.locked && pins == 0 ==> buf.data == disk[buf.blockno])
  }

  ghost predicate CacheOk(bufs: seq<Buf>, pins: seq<nat>, disk: Disk) {
    && |bufs| == NBUF
    && |pins| == NBUF
    && (forall i :: 0 <= i < NBUF ==> BufOk(bufs[i], pins[i], disk))
    && (forall i, j, b :: Holds(bufs, i, b) && Holds(bufs, j, b) ==> i == j)
  }

  /** NBUF buffers and the head, each exactly once. */
  ghost predicate LruOk(cycle: seq<nat>) {
    && |cycle| == NBUF + 1
    && cycle[0] == NBUF
    && Distinct(cycle)
    && forall i :: 0 <= i < |cycle| ==> cycle[i] <= NBUF
  }

  ghost predicate ReferencedFrom(bufs: seq<Buf>, cycle: seq<nat>, p: nat)
    requires |bufs| == NBUF
  {
    forall q :: p <= q < |cycle| ==> cycle[q] < NBUF && bufs[cycle[q]].refcnt > 0
  }

  /** `i` is unreferenced and every buffer used less recently than it is referenced. */
  ghost predicate LeastRecent(bufs: seq<Buf>, cycle: seq<nat>, i: nat)
    requires |bufs| == NBUF && LruOk(cycle)
  {
    && i < NBUF && bufs[i].refcnt == 0
    && exists p :: 0 < p < |cycle| && cycle[p] == i && ReferencedFrom(bufs, cycle, p + 1)
  }

  class Bcache {
    var disk: Disk
    var bufs: seq<Buf>
    const lru: ListHeads
    /** The LRU ring from the head: most recently used first. */
    ghost var cycle: seq<nat>
    /** `bpin` calls not yet undone by `bunpin`. */
    ghost var pins: seq<nat>
    /** The disk after each `bwrite` since boot. */
    ghost var history: seq<Disk>

    ghost predicate Valid()
      reads this, lru
    {
      && CacheOk(bufs, pins, disk)
      && LruOk(cycle)
      && Ring(lru.next, lru.prev, cycle)
      && |lru.next| == NBUF + 1
    }

    /** `binit` at boot: nothing is cached, so what was in memory before a crash is gone. */
    constructor (disk: Disk)
      ensures Valid() && fresh(lru)
      ensures this.disk == disk && history == []
      ensures forall i :: 0 <= i < NBUF ==> bufs[i].refcnt == 0 && !bufs[i].locked && pins[i] == 0
      ensures forall b: nat :: b < |disk| ==> View(bufs, disk, b) == disk[b]
    {
      this.disk := disk;
      var zero: Block := seq(BWORDS, _ => 0);
      bufs := seq(NBUF, _ => Buf(false, 0, 0, false, 0, zero));
      pins := seq(NBUF, _ => 0);
      history := [];
      var links := new ListHeads(NBUF + 1);
      lru := links;
      ghost var c := [NBUF];
      for b := 0 to NBUF
        invariant fresh(links)
        invariant |c| == b + 1 && c[0] == NBUF
        invariant forall i :: 1 <= i < |c| ==> c[i] == b - i
        invariant |links.next| == NBUF + 1
        invariant Ring(links.next, links.prev, c)
      {
        links.ListAdd(b, NBUF, c, 0);
        c := Inserted(c, 0, b);
      }
      cycle := c;
    }

    /** The search of `bget` for a buffer that already caches the block. */
    method Lookup(dev: nat, blockno: nat) returns (r: Option<nat>)
      requires Valid() && dev == ROOTDEV
      ensures r.None? <==> !Cached(bufs, blockno)
      ensures r.Some? ==> Holds(bufs, r.value, blockno)
    {
      var b := lru.next[NBUF];
      ghost var p := 1;
      assert lru.next[cycle[0]] == After(cycle, 0);
      while b != NBUF
        invariant 0 < p <= |cycle|
        invariant b == if p < |cycle| then cycle[p] else NBUF
        invariant forall q :: 0 < q < p ==> !Holds(bufs, cycle[q], blockno)
        decreases |cycle| - p
      {
        if bufs[b].dev == dev && bufs[b].blockno == blockno {
          assert Holds(bufs, b, blockno);
          return Some(b);
        }
        assert lru.next[cycle[p]] == After(cycle, p);
        b := lru.next[b];
        p := p + 1;
      }
      assert p == |cycle|;
      forall i: nat ensures !Holds(bufs, i, blockno) {
        if i < NBUF { var q := EveryBufferOn(cycle, i); }
      }
      r := None;
    }

    /** The search of `bget` from the tail of the ring for an unreferenced buffer. */
    method LeastRecentlyUsed() returns (r: Option<nat>)
      requires Valid()
      ensures r.None? <==> forall i :: 0 <= i < NBUF ==> bufs[i].refcnt > 0
      ensures r.Some? ==> LeastRecent(bufs, cycle, r.value)
    {
      var b := lru.prev[NBUF];
      ghost var p: nat := |cycle| - 1;
      assert lru.prev[cycle[0]] == Before(cycle, 0);
      while b != NBUF
        invariant p < |cycle|
        invariant b == cycle[p]
        invariant ReferencedFrom(bufs, cycle, p + 1)
        decreases p
      {
        if bufs[b].refcnt == 0 {
          return Some(b);
        }
        assert lru.prev[cycle[p]] == Before(cycle, p);
        b := lru.prev[b];
        p := p - 1;
      }
      assert p == 0;
      forall i | 0 <= i < NBUF ensures bufs[i].refcnt > 0 {
        var q := EveryBufferOn(cycle, i);
      }
      r := None;
    }

    /**
     `bget` up to the release of the cache lock: the buffer caching the block gains a reference;
     failing that the least recently used unreferenced buffer is given to the block; failing
     that the kernel panics, which is `None`.
     */
    method FindBuf(dev: nat, blockno: nat) returns (r: Option<nat>)
      requires Valid() && dev == ROOTDEV && blockno < |disk|
      modifies this`bufs
      ensures Valid()
      ensures r.None? <==> !Cached(old(bufs), blockno) && forall i :: 0 <= i < NBUF ==> old(bufs)[i].refcnt > 0
      ensures r.None? ==> bufs == old(bufs)
      ensures r.Some? ==> Holds(bufs, r.value, blockno) && bufs == old(bufs)[r.value := bufs[r.value]]
      ensures r.Some? && Cached(old(bufs), blockno) ==>
        var was := old(bufs)[r.value];
        Holds(old(bufs), r.value, blockno) && bufs[r.value] == was.(refcnt := was.refcnt + 1)
      ensures r.Some? && !Cached(old(bufs), blockno) ==>
        && LeastRecent(old(bufs), cycle, r.value)
        && !bufs[r.value].valid && !bufs[r.value].locked && bufs[r.value].refcnt == 1
      ensures forall b: nat :: b < |disk| ==> View(bufs, disk, b) == View(old(bufs), disk, b)
    {
      r := Lookup(dev, blockno);
      if r.Some? {
        var b := r.value;
        bufs := bufs[b := bufs[b].(refcnt := bufs[b].refcnt + 1)];
        Rebooked(old(bufs), bufs, disk, pins, b);
      } else {
        r := LeastRecentlyUsed();
        if r.Some? {
          var b := r.value;
          bufs := bufs[b := bufs[b].(dev := dev, blockno := blockno, valid := false, refcnt := 1)];
          Recycled(old(bufs), bufs, disk, pins, b, blockno);
        }
      }
    }

    /** The end of `bget`: `acquiresleep` once no one holds the buffer. */
    method AcquireBuf(i: nat)
      requires Valid() && i < NBUF && !bufs[i].locked
      requires bufs[i].refcnt > pins[i]
      modifies this`bufs
      ensures Valid()
      ensures bufs == old(bufs)[i := old(bufs)[i].(locked := true)]
      ensures forall b: nat :: b < |disk| ==> View(bufs, disk, b) == View(old(bufs), disk, b)
    {
      bufs := bufs[i := bufs[i].(locked := true)];
      Rebooked(old(bufs), bufs, disk, pins, i);
    }

    /** A locked buffer with the contents of the block: those in the cache, else those on the disk. */
    method Bread(dev: nat, blockno: nat) returns (r: Option<nat>)
      requires Valid() && dev == ROOTDEV && blockno < |disk|
      requires forall i: nat :: Holds(bufs, i, blockno) ==> !bufs[i].locked
      modifies this`bufs
      ensures Valid()
      ensures r.None? <==> !Cached(old(bufs), blockno) && forall i :: 0 <= i < NBUF ==> old(bufs)[i].refcnt > 0
      ensures r.None? ==> bufs == old(bufs)
      ensures r.Some? ==> Holds(bufs, r.value, blockno) && bufs == old(bufs)[r.value := bufs[r.value]]
      ensures r.Some? ==>
        && bufs[r.value].locked && bufs[r.value].valid
        && bufs[r.value].data == View(old(bufs), disk, blockno)
        && (pins[r.value] == 0 ==> bufs[r.value].data == disk[blockno])
        && bufs[r.value].refcnt == old(bufs)[r.value].refcnt + 1
        && (old(bufs)[r.value].refcnt > 0 ==> Holds(old(bufs), r.value, blockno))
      ensures r.Some? && Cached(old(bufs), blockno) ==> Holds(old(bufs), r.value, blockno)
      ensures r.Some? && !Cached(old(bufs), blockno) ==> LeastRecent(old(bufs), cycle, r.value)
      ensures forall b: nat :: b < |disk| ==> View(bufs, disk, b) == View(old(bufs), disk, b)
    {
      r := FindBuf(dev, blockno);
      if r.Some? {
        var i := r.value;
        AcquireBuf(i);
        if !bufs[i].valid {
          ghost var before := bufs;
          bufs := bufs[i := bufs[i].(data := disk[blockno], valid := true)];
          ReadIn(before, bufs, disk, pins, i);
        }
        ViewAt(bufs, disk, pins, i);
      }
    }

    /** A lock holder changing `b->data`. */
    method SetData(i: nat, data: Block)
      requires Valid() && i < NBUF && bufs[i].locked && bufs[i].valid
      modifies this`bufs
      ensures Valid()
      ensures bufs == old(bufs)[i := old(bufs)[i].(data := data)]
      ensures forall b: nat :: b < |disk| ==>
        View(bufs, disk, b) == if b == bufs[i].blockno then data else View(old(bufs), disk, b)
    {
      bufs := bufs[i := bufs[i].(data := data)];
      Changed(old(bufs), bufs, disk, disk, pins, i);
    }

    /** One atomic block write: the disk takes the buffer's contents. */
    method Bwrite(i: nat)
      requires Valid() && i < NBUF && bufs[i].locked && bufs[i].valid
      modifies this`disk, this`history
      ensures Valid()
      ensures disk == old(disk)[bufs[i].blockno := bufs[i].data]
      ensures history == old(history) + [disk]
      ensures forall b: nat :: b < |disk| ==> View(bufs, disk, b) == View(bufs, old(disk), b)
    {
      disk := disk[bufs[i].blockno := bufs[i].data];
      history := history + [disk];
      ViewAt(bufs, old(disk), pins, i);
      Changed(bufs, bufs, old(disk), disk, pins, i);
    }

    /** Let go of a buffer whose contents are on the disk or pinned for the log. */
    method Brelse(i: nat)
      requires Valid() && i < NBUF && bufs[i].locked && bufs[i].valid
      requires pins[i] == 0 ==> bufs[i].data == disk[bufs[i].blockno]
      modifies this`bufs, this`cycle, lru
      ensures Valid()
      ensures bufs == old(bufs)[i := old(bufs)[i].(locked := false, refcnt := old(bufs)[i].refcnt - 1)]
      ensures bufs[i].refcnt > 0 ==> cycle == old(cycle)
      ensures bufs[i].refcnt == 0 ==>
        exists p :: 0 < p < |old(cycle)| && old(cycle)[p] == i && cycle == Inserted(Removed(old(cycle), p), 0, i)
      ensures forall b: nat :: b < |disk| ==> View(bufs, disk, b) == View(old(bufs), disk, b)
    {
      bufs := bufs[i := bufs[i].(locked := false, refcnt := bufs[i].refcnt - 1)];
      Rebooked(old(bufs), bufs, disk, pins, i);
      if bufs[i].refcnt == 0 {
        ghost var p := EveryBufferOn(cycle, i);
        lru.ListDel(i, cycle, p);
        ghost var c := Removed(cycle, p);
        lru.ListAdd(i, NBUF, c, 0);
        cycle := Inserted(c, 0, i);
      }
    }

    /** Keep the buffer in the cache after its holder lets go of it. */
    method Bpin(i: nat)
      requires Valid() && i < NBUF && bufs[i].locked && bufs[i].valid
      modifies this`bufs, this`pins
      ensures Valid()
      ensures pins == old(pins)[i := old(pins)[i] + 1]
      ensures bufs == old(bufs)[i := old(bufs)[i].(refcnt := old(bufs)[i].refcnt + 1)]
      ensures forall b: nat :: b < |disk| ==> View(bufs, disk, b) == View(old(bufs), disk, b)
    {
      bufs := bufs[i := bufs[i].(refcnt := bufs[i].refcnt + 1)];
      pins := pins[i := pins[i] + 1];
      Rebooked(old(bufs), bufs, disk, old(pins), i);
    }

    method Bunpin(i: nat)
      requires Valid() && i < NBUF && bufs[i].locked && pins[i] > 0
      modifies this`bufs, this`pins
      ensures Valid()
      ensures pins == old(pins)[i := old(pins)[i] - 1]
      ensures bufs == old(bufs)[i := old(bufs)[i].(refcnt := old(bufs)[i].refcnt - 1)]
      ensures forall b: nat :: b < |disk| ==> View(bufs, disk, b) == View(old(bufs), disk, b)
    {
      bufs := bufs[i := bufs[i].(refcnt := bufs[i].refcnt - 1)];
      pins := pins[i := pins[i] - 1];
      Rebooked(old(bufs), bufs, disk, old(pins), i);
    }
  }

  lemma EveryBufferOn(cycle: seq<nat>, i: nat) returns (q: nat)
    requires LruOk(cycle) && i < NBUF
    ensures 0 < q < |cycle| && cycle[q] == i
  {
    Pigeonhole(cycle, NBUF + 1);
    assert i in cycle;
    q :| 0 <= q < |cycle| && cycle[q] == i;
  }

  /** Changing a buffer's bookkeeping but not what it holds changes no view. */
  lemma Rebooked(bufs: seq<Buf>, bufs': seq<Buf>, disk: Disk, pins: seq<nat>, i: nat)
    requires CacheOk(bufs, pins, disk) && i < NBUF == |bufs'|
    requires bufs' == bufs[i := bufs'[i]]
    requires bufs'[i].dev == bufs[i].dev && bufs'[i].blockno == bufs[i].blockno
    requires bufs'[i].valid == bufs[i].valid && bufs'[i].data == bufs[i].data
    ensures forall b: nat :: b < |disk| ==> View(bufs', disk, b) == View(bufs, disk, b)
    ensures forall j, b :: Holds(bufs', j, b) <==> Holds(bufs, j, b)
  {
    forall b: nat | b < |disk| ensures View(bufs', disk, b) == View(bufs, disk, b) {
      if Cached(bufs, b) { assert Holds(bufs', BufOf(bufs, b), b); }
      if Cached(bufs', b) { assert Holds(bufs, BufOf(bufs', b), b); }
    }
  }

  /** Giving an unreferenced buffer to an uncached block changes no view: it was clean. */
  lemma Recycled(bufs: seq<Buf>, bufs': seq<Buf>, disk: Disk, pins: seq<nat>, i: nat, blockno: nat)
    requires CacheOk(bufs, pins, disk) && i < NBUF && blockno < |disk|
    requires bufs[i].refcnt == 0 && !Cached(bufs, blockno)
    requires bufs' == bufs[i := bufs[i].(dev := ROOTDEV, blockno := blockno, valid := false, refcnt := 1)]
    ensures forall b: nat :: b < |disk| ==> View(bufs', disk, b) == View(bufs, disk, b)
    ensures CacheOk(bufs', pins, disk)
  {
    assert Holds(bufs', i, blockno);
    assert forall j, b :: j != i ==> (Holds(bufs', j, b) <==> Holds(bufs, j, b));
    forall b: nat | b < |disk| ensures View(bufs', disk, b) == View(bufs, disk, b) {
      if Cached(bufs, b) && BufOf(bufs, b) != i { assert Holds(bufs', BufOf(bufs, b), b); }
      if Cached(bufs', b) && BufOf(bufs', b) != i { assert Holds(bufs, BufOf(bufs', b), b); }
    }
  }

  /** A valid buffer is the view of its block. */
  lemma ViewAt(bufs: seq<Buf>, disk: Disk, pins: seq<nat>, i: nat)
    requires CacheOk(bufs, pins, disk) && i < NBUF && bufs[i].valid
    ensures View(bufs, disk, bufs[i].blockno) == bufs[i].data
  {
    assert Holds(bufs, i, bufs[i].blockno);
  }

  /** An unlocked, unpinned block looks the same in the cache and on the disk. */
  lemma CleanView(bufs: seq<Buf>, disk: Disk, pins: seq<nat>, b: nat)
    requires CacheOk(bufs, pins, disk) && b < |disk|
    requires forall i: nat :: Holds(bufs, i, b) ==> !bufs[i].locked && pins[i] == 0
    ensures View(bufs, disk, b) == disk[b]
  {
  }

  /** Reading a block into its buffer changes no view. */
  lemma ReadIn(bufs: seq<Buf>, bufs': seq<Buf>, disk: Disk, pins: seq<nat>, i: nat)
    requires CacheOk(bufs, pins, disk) && i < NBUF && bufs[i].dev == ROOTDEV && !bufs[i].valid
    requires bufs' == bufs[i := bufs[i].(data := disk[bufs[i].blockno], valid := true)]
    ensures forall b: nat :: b < |disk| ==> View(bufs', disk, b) == View(bufs, disk, b)
    ensures CacheOk(bufs', pins, disk)
  {
    assert forall j, b :: Holds(bufs', j, b) <==> Holds(bufs, j, b);
    forall b: nat | b < |disk| ensures View(bufs', disk, b) == View(bufs, disk, b) {
      if Cached(bufs, b) { assert Holds(bufs', BufOf(bufs, b), b); }
      if Cached(bufs', b) { assert Holds(bufs, BufOf(bufs', b), b); }
    }
  }

  /** Changing one locked buffer's data, or the disk under it, changes at most that block's view. */
  lemma Changed(bufs: seq<Buf>, bufs': seq<Buf>, disk: Disk, disk': Disk, pins: seq<nat>, i: nat)
    requires CacheOk(bufs, pins, disk) && i < NBUF && bufs[i].locked && bufs[i].valid
    requires |bufs'| == NBUF && |disk'| == |disk|
    requires bufs' == bufs[i := bufs[i].(data := bufs'[i].data)]
    requires disk' == disk[bufs[i].blockno := disk'[bufs[i].blockno]]
    ensures CacheOk(bufs', pins, disk')
    ensures forall b: nat :: b < |disk| ==>
      View(bufs', disk', b) == if b == bufs[i].blockno then bufs'[i].data else View(bufs, disk, b)
  {
    assert forall j, b :: Holds(bufs', j, b) <==> Holds(bufs, j, b);
    assert Holds(bufs, i, bufs[i].blockno);
    forall b: nat | b < |disk|
      ensures View(bufs', disk', b) == if b == bufs[i].blockno then bufs'[i].data else View(bufs, disk, b)
    {
      if Cached(bufs, b) { assert Holds(bufs', BufOf(bufs, b), b); }
      if Cached(bufs', b) { assert Holds(bufs, BufOf(bufs', b), b); }
    }
    forall j | 0 <= j < NBUF ensures BufOk(bufs'[j], pins[j], disk') {
      if j != i && bufs[j].dev == ROOTDEV { assert Holds(bufs, j, bufs[j].blockno); }
    }
  }
}
