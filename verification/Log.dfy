/**
 `kernel/log.c` over the buffer cache: the in-memory log and the code that moves it to disk.
 A `false` result of the disk-moving methods is the panic of `bget` when no buffer is free.
 */
module Log {
  import opened Options
  import opened Counting
  import opened BufferCache
  import opened LogDisk

  /** The buffer holds one of `blocks`. */
  ghost predicate HoldsAny(buf: Buf, blocks: seq<nat>) {
    buf.dev == ROOTDEV && buf.blockno in blocks
  }

  /** Exactly the buffers of `blocks` are pinned, once each. */
  ghost predicate PinnedFor(bufs: seq<Buf>, pins: seq<nat>, blocks: seq<nat>) {
    && |bufs| == |pins| == NBUF
    && (forall i :: 0 <= i < NBUF ==> pins[i] == if HoldsAny(bufs[i], blocks) then 1 else 0)
    && (forall b :: b in blocks ==> Cached(bufs, b))
  }

  /** The buffers of `blocks` are pinned once each; processes hold the buffers in `busy`, and nobody any other. */
  ghost predicate Holding(bufs: seq<Buf>, pins: seq<nat>, blocks: seq<nat>, busy: set<nat>) {
    && PinnedFor(bufs, pins, blocks)
    && (forall i :: i in busy ==> i < NBUF && bufs[i].refcnt > pins[i])
    && (forall i :: 0 <= i < NBUF && i !in busy ==> !bufs[i].locked && bufs[i].refcnt == pins[i])
  }

  /** What processes hold is neither a logged block nor a block of the log. */
  ghost predicate Aside(bufs: seq<Buf>, busy: set<nat>, blocks: seq<nat>, g: Geometry) {
    forall i :: i in busy ==> i < |bufs| && bufs[i].blockno !in blocks && !InLog(g, bufs[i].blockno)
  }

  /** What processes hold they only read. */
  ghost predicate Reading(bufs: seq<Buf>, busy: set<nat>, disk: Disk) {
    forall i :: i in busy ==> i < |bufs| && bufs[i].blockno < |disk| && (bufs[i].valid ==> bufs[i].data == disk[bufs[i].blockno])
  }

  /** The buffers in `busy` are as before. */
  ghost predicate SameOn(bufs: seq<Buf>, bufs': seq<Buf>, busy: set<nat>) {
    |bufs'| == |bufs| && forall i :: i in busy && i < |bufs| ==> bufs'[i] == bufs[i]
  }

  /** `blocks` without the first element when it has just been unpinned. */
  ghost function Left(blocks: seq<nat>, unpin: bool): seq<nat>
    requires unpin ==> blocks != []
  {
    if unpin then blocks[1..] else blocks
  }

  function Released(b: Buf): Buf
    requires b.refcnt > 0
  {
    b.(locked := false, refcnt := b.refcnt - 1)
  }

  /** The buffer as `bread` returns it; pinned or as on the disk, and with one reference beyond its pins. */
  ghost predicate Locked(buf: Buf, b: nat, pins: nat, disk: Disk)
    requires b < |disk|
  {
    && buf.dev == ROOTDEV && buf.blockno == b && buf.locked && buf.valid && buf.refcnt == pins + 1
    && (pins == 0 ==> buf.data == disk[b])
  }

  /** What the processes see of every block. */
  ghost function Mem(bufs: seq<Buf>, disk: Disk): (m: Disk)
    ensures |m| == |disk|
    ensures forall b: nat :: b < |disk| ==> m[b] == View(bufs, disk, b)
  {
    seq(|disk|, b requires 0 <= b < |disk| => View(bufs, disk, b))
  }

  class Log {
    const bc: Bcache
    const g: Geometry
    var outstanding: nat
    var committing: bool
    /** `lh.block[0..lh.n]` */
    var lh: seq<nat>

    constructor (bc: Bcache, g: Geometry)
      ensures this.bc == bc && this.g == g
      ensures outstanding == 0 && !committing && lh == []
    {
      this.bc := bc;
      this.g := g;
      outstanding, committing, lh := 0, false, [];
    }

    /** With both buffers locked: copy, write to the disk, perhaps unpin, let go of both. */
    method Move(src: nat, dst: nat, unpin: bool)
      requires bc.Valid() && src < NBUF && dst < NBUF && src != dst
      requires bc.bufs[src].locked && bc.bufs[src].valid && bc.bufs[dst].locked && bc.bufs[dst].valid
      requires bc.pins[src] == 0 ==> bc.bufs[src].data == bc.disk[bc.bufs[src].blockno]
      requires unpin ==> bc.pins[dst] > 0
      modifies bc, bc.lru
      ensures bc.Valid()
      ensures bc.disk == old(bc.disk)[old(bc.bufs)[dst].blockno := old(bc.bufs)[src].data]
      ensures bc.history == old(bc.history) + [bc.disk]
      ensures bc.pins == if unpin then old(bc.pins)[dst := old(bc.pins)[dst] - 1] else old(bc.pins)
      ensures |bc.bufs| == NBUF && bc.bufs == old(bc.bufs)[src := bc.bufs[src]][dst := bc.bufs[dst]]
      ensures bc.bufs[src] == Released(old(bc.bufs)[src])
      ensures bc.bufs[dst] == Released(old(bc.bufs)[dst]).(data := bc.bufs[dst].data, refcnt := bc.bufs[dst].refcnt)
      ensures bc.bufs[dst].refcnt == old(bc.bufs)[dst].refcnt - if unpin then 2 else 1
      ensures forall b: nat :: b < |bc.disk| ==>
        View(bc.bufs, bc.disk, b) ==
        if b == old(bc.bufs)[dst].blockno then old(bc.bufs)[src].data else View(old(bc.bufs), old(bc.disk), b)
    {
      assert Holds(bc.bufs, src, bc.bufs[src].blockno) && Holds(bc.bufs, dst, bc.bufs[dst].blockno);
      bc.SetData(dst, bc.bufs[src].data);
      bc.Bwrite(dst);
      if unpin { bc.Bunpin(dst); }
      bc.Brelse(src);
      bc.Brelse(dst);
    }

    /** Lock the buffers of a log block and a home block; the panic comes exactly when all are pinned. */
    method LockPair(logb: nat, homeb: nat, ghost pinned: seq<nat>, ghost busy: set<nat>) returns (ok: bool, l: nat, h: nat)
      requires bc.Valid() && logb < |bc.disk| && homeb < |bc.disk| && logb != homeb
      requires Distinct(pinned) && Holding(bc.bufs, bc.pins, pinned, busy) && Aside(bc.bufs, busy, pinned, g)
      requires logb !in pinned && InLog(g, logb) && (homeb in pinned || (pinned == [] && busy == {}))
      modifies bc`bufs
      ensures bc.Valid()
      ensures ok <==> |pinned| + |busy| < NBUF
      ensures ok ==> l < NBUF && h < NBUF && l != h && old(bc.bufs)[l].refcnt == 0 && h !in busy
      ensures ok ==> forall i :: 0 <= i < NBUF && i != l && i != h ==> bc.bufs[i] == old(bc.bufs)[i]
      ensures ok ==> Locked(bc.bufs[l], logb, bc.pins[l], bc.disk) && bc.bufs[l].data == View(old(bc.bufs), bc.disk, logb)
      ensures ok ==> Locked(bc.bufs[h], homeb, bc.pins[h], bc.disk) && bc.bufs[h].data == View(old(bc.bufs), bc.disk, homeb)
      ensures ok ==> (old(bc.bufs)[h].refcnt > 0 || homeb in pinned ==> Holds(old(bc.bufs), h, homeb))
      ensures forall b: nat :: b < |bc.disk| ==> View(bc.bufs, bc.disk, b) == View(old(bc.bufs), bc.disk, b)
    {
      hide Aside;
      l, h := 0, 0;
      FreeBuffers(bc.bufs, bc.pins, bc.disk, pinned, busy, g);
      NotBusy(bc.bufs, bc.pins, pinned, busy, g, logb);
      var r := bc.Bread(ROOTDEV, logb);
      if r.None? { return false, l, h; }
      l := r.value;
      StillCached(old(bc.bufs), bc.pins, bc.bufs, bc.disk, pinned, busy, g, l, logb, homeb);
      r := bc.Bread(ROOTDEV, homeb);
      ok, h := true, r.value;
    }

    /**
     The body of the loops of `write_log` and `install_trans`: lock the log block and the home
     block, copy one to the other, write it to the disk, and perhaps unpin the home block.
     */
    method Transfer(logb: nat, homeb: nat, toLog: bool, unpin: bool, ghost pinned: seq<nat>, ghost busy: set<nat>) returns (ok: bool)
      requires bc.Valid() && logb < |bc.disk| && homeb < |bc.disk| && logb != homeb
      requires Distinct(pinned) && Holding(bc.bufs, bc.pins, pinned, busy) && Aside(bc.bufs, busy, pinned, g)
      requires logb !in pinned && InLog(g, logb) && (homeb in pinned || (pinned == [] && busy == {}))
      requires unpin ==> !toLog && pinned != [] && homeb == pinned[0]
      modifies bc, bc.lru
      ensures ok <==> |pinned| + |busy| < NBUF
      ensures !ok ==> bc.disk == old(bc.disk) && bc.history == old(bc.history)
      ensures ok ==> bc.Valid() && Holding(bc.bufs, bc.pins, Left(pinned, unpin), busy) && SameOn(old(bc.bufs), bc.bufs, busy)
      ensures ok ==>
        var src, dst := if toLog then homeb else logb, if toLog then logb else homeb;
        var data := View(old(bc.bufs), old(bc.disk), src);
        && bc.disk == old(bc.disk)[dst := data]
        && bc.history == old(bc.history) + [bc.disk]
        && forall b: nat :: b < |bc.disk| ==>
             View(bc.bufs, bc.disk, b) == if b == dst then data else View(old(bc.bufs), old(bc.disk), b)
    {
      hide Aside, SameOn;
      var l, h;
      ok, l, h := LockPair(logb, homeb, pinned, busy);
      if ok {
        Move(if toLog then h else l, if toLog then l else h, unpin);
        HoldingAfter(old(bc.bufs), bc.bufs, old(bc.pins), bc.pins, old(bc.disk), pinned, busy, l, h, logb, homeb, unpin);
      }
    }

    /** Copy the logged blocks from the cache to the log, one block write each. */
    method WriteLog(ghost d: Disk, ghost mem: Disk, ghost busy: set<nat>) returns (ok: bool)
      requires bc.Valid() && LogOk(bc.disk, g, lh) && Holding(bc.bufs, bc.pins, lh, busy) && Aside(bc.bufs, busy, lh, g)
      requires d == bc.disk && mem == Mem(bc.bufs, bc.disk)
      modifies bc, bc.lru
      ensures ok <==> lh == [] || |lh| + |busy| < NBUF
      ensures !ok ==> bc.disk == d && bc.history == old(bc.history)
      ensures ok ==> bc.Valid() && Holding(bc.bufs, bc.pins, lh, busy) && SameOn(old(bc.bufs), bc.bufs, busy)
      ensures ok ==> bc.disk == CommitDisk(d, g, lh, mem, |lh|)
      ensures ok ==> bc.history == old(bc.history) + CommitTrace(d, g, lh, mem, |lh|)
      ensures ok ==> SameHome(Mem(bc.bufs, bc.disk), mem, g)
    {
      hide CommitDisk, Installed, InstallTrace, View, Holding, Aside, SameOn;
      CommitStart(d, g, lh, mem, g.start);
      SameAtStart(bc.bufs, busy);
      var tail := 0;
      ok := true;
      while tail < |lh|
        invariant 0 <= tail <= |lh|
        invariant bc.Valid() && Holding(bc.bufs, bc.pins, lh, busy)
        invariant SameOn(old(bc.bufs), bc.bufs, busy) && Aside(bc.bufs, busy, lh, g)
        invariant bc.disk == CommitDisk(d, g, lh, mem, tail)
        invariant bc.history == old(bc.history) + CommitTrace(d, g, lh, mem, tail)
        invariant SameHome(Mem(bc.bufs, bc.disk), mem, g)
        invariant tail > 0 ==> |lh| + |busy| < NBUF
      {
        ghost var before, e, was := Mem(bc.bufs, bc.disk), bc.disk, bc.bufs;
        ok := Transfer(g.start + tail + 1, lh[tail], true, false, lh, busy);
        if !ok { return; }
        StillAside(old(bc.bufs), was, bc.bufs, busy, lh, g);
        CommitStep(d, g, lh, mem, e, tail);
        tail := tail + 1;
        assert SameHome(Mem(bc.bufs, bc.disk), before, g);
      }
    }

    /** Put the in-memory header on the disk: one block write. */
    method WriteHead(ghost pinned: seq<nat>, ghost busy: set<nat>)
      requires bc.Valid() && Distinct(pinned) && Holding(bc.bufs, bc.pins, pinned, busy) && Aside(bc.bufs, busy, pinned, g)
      requires |pinned| + |busy| < NBUF && InLog(g, g.start) && g.start < |bc.disk| && g.start !in pinned && |lh| <= LOGSIZE
      modifies bc, bc.lru
      ensures bc.Valid() && Holding(bc.bufs, bc.pins, pinned, busy) && SameOn(old(bc.bufs), bc.bufs, busy)
      ensures bc.disk == old(bc.disk)[g.start := PutHead(old(bc.disk)[g.start], lh)]
      ensures bc.history == old(bc.history) + [bc.disk]
      ensures forall b: nat :: b < |bc.disk| && b != g.start ==>
        View(bc.bufs, bc.disk, b) == View(old(bc.bufs), old(bc.disk), b)
    {
      hide Holding, Aside, SameOn;
      FreeBuffers(bc.bufs, bc.pins, bc.disk, pinned, busy, g);
      NotBusy(bc.bufs, bc.pins, pinned, busy, g, g.start);
      var r := bc.Bread(ROOTDEV, g.start);
      var b := r.value;
      Recycles(old(bc.bufs), bc.pins, bc.bufs, pinned, busy, g, b, g.start);
      bc.SetData(b, PutHead(bc.bufs[b].data, lh));
      bc.Bwrite(b);
      bc.Brelse(b);
      HoldingKept(old(bc.bufs), bc.bufs, bc.pins, pinned, busy, b, g.start);
    }

    method InstallOne(tail: nat, recovering: bool, ghost busy: set<nat>)
      requires bc.Valid() && LogOk(bc.disk, g, lh) && tail < |lh| && Aside(bc.bufs, busy, lh, g)
      requires Holding(bc.bufs, bc.pins, if recovering then [] else lh[tail..], busy)
      requires if recovering then busy == {} else |lh| + |busy| < NBUF
      modifies bc, bc.lru
      ensures bc.Valid() && Holding(bc.bufs, bc.pins, if recovering then [] else lh[tail + 1..], busy)
      ensures SameOn(old(bc.bufs), bc.bufs, busy)
      ensures bc.disk == old(bc.disk)[lh[tail] := old(bc.disk)[g.start + tail + 1]]
      ensures bc.history == old(bc.history) + [bc.disk]
    {
      ghost var pinned := if recovering then [] else lh[tail..];
      Suffix(bc.disk, g, lh, tail);
      Clean(bc.bufs, bc.disk, bc.pins, pinned, busy, g, g.start + tail + 1);
      var ok := Transfer(g.start + tail + 1, lh[tail], false, !recovering, pinned, busy);
    }

    /** Copy the logged blocks from the log to their homes, one block write each. */
    method InstallTrans(recovering: bool, ghost busy: set<nat>)
      requires bc.Valid() && LogOk(bc.disk, g, lh) && Aside(bc.bufs, busy, lh, g)
      requires Holding(bc.bufs, bc.pins, if recovering then [] else lh, busy)
      requires if recovering then busy == {} else |lh| + |busy| < NBUF
      modifies bc, bc.lru
      ensures bc.Valid() && Holding(bc.bufs, bc.pins, [], busy) && SameOn(old(bc.bufs), bc.bufs, busy)
      ensures bc.disk == Installed(old(bc.disk), g, lh, |lh|)
      ensures bc.history == old(bc.history) + InstallTrace(old(bc.disk), g, lh, |lh|)
    {
      hide Holding, Installed, InstallTrace, Aside, SameOn;
      ghost var d := bc.disk;
      SameAtStart(bc.bufs, busy);
      var tail := 0;
      assert lh[0..] == lh;
      InstallStart(d, g, lh);
      while tail < |lh|
        invariant 0 <= tail <= |lh|
        invariant bc.Valid() && Holding(bc.bufs, bc.pins, if recovering then [] else lh[tail..], busy)
        invariant SameOn(old(bc.bufs), bc.bufs, busy) && Aside(bc.bufs, busy, lh, g)
        invariant bc.disk == Installed(d, g, lh, tail)
        invariant bc.history == old(bc.history) + InstallTrace(d, g, lh, tail)
      {
        InstallStep(d, g, lh, tail);
        ghost var was := bc.bufs;
        InstallOne(tail, recovering, busy);
        StillAside(old(bc.bufs), was, bc.bufs, busy, lh, g);
        tail := tail + 1;
      }
      assert lh[tail..] == [];
    }

    /**
     Commit the transaction. Every disk it passes through is the next one of `CommitTrace`; it
     finishes exactly when the logged blocks leave a buffer free.
     */
    method Commit(ghost d: Disk, ghost mem: Disk, ghost busy: set<nat>) returns (ok: bool)
      requires bc.Valid() && LogOk(bc.disk, g, lh) && Holding(bc.bufs, bc.pins, lh, busy) && Aside(bc.bufs, busy, lh, g)
      requires d == bc.disk && mem == Mem(bc.bufs, bc.disk)
      modifies this`lh, bc, bc.lru
      ensures ok <==> old(lh) == [] || |old(lh)| + |busy| < NBUF
      ensures !ok || old(lh) == [] ==> bc.disk == d && bc.history == old(bc.history)
      ensures ok ==> lh == [] && bc.Valid() && Holding(bc.bufs, bc.pins, [], busy) && SameOn(old(bc.bufs), bc.bufs, busy)
      ensures ok && old(lh) != [] ==> bc.disk == CommitDisk(d, g, old(lh), mem, 2 * |old(lh)| + 2)
      ensures ok && old(lh) != [] ==> bc.history == old(bc.history) + CommitTrace(d, g, old(lh), mem, 2 * |old(lh)| + 2)
    {
      hide CommitDisk, CommitTrace, Installed, InstallTrace, View;
      ok := true;
      if |lh| > 0 {
        ghost var blocks := lh;
        ok := WriteLog(d, mem, busy);
        if !ok { return; }
        CommitStep(d, g, blocks, mem, bc.disk, |blocks|);
        WriteHead(lh, busy);
        ghost var e := bc.disk;
        InstallTrans(false, busy);
        InstallInCommit(d, g, blocks, mem, e, |blocks|);
        CommitStep(d, g, blocks, mem, bc.disk, 2 * |blocks| + 1);
        lh := [];
        WriteHead([], busy);
      }
    }

    /** The in-memory header becomes the one on the disk. */
    method ReadHead()
      requires bc.Valid() && Holding(bc.bufs, bc.pins, [], {}) && DiskOk(bc.disk, g)
      modifies this`lh, bc, bc.lru
      ensures bc.Valid() && Holding(bc.bufs, bc.pins, [], {})
      ensures bc.disk == old(bc.disk) && bc.history == old(bc.history)
      ensures lh == Head(bc.disk, g)
    {
      FreeBuffers(bc.bufs, bc.pins, bc.disk, [], {}, g);
      var r := bc.Bread(ROOTDEV, g.start);
      var b := r.value;
      Recycles(old(bc.bufs), bc.pins, bc.bufs, [], {}, g, b, g.start);
      var head, blocks := bc.bufs[b].data, [];
      for i := 0 to head[0]
        invariant blocks == head[1..1 + i]
      {
        blocks := blocks + [head[1 + i]];
      }
      lh := blocks;
      bc.Brelse(b);
      HoldingKept(old(bc.bufs), bc.bufs, bc.pins, [], {}, b, g.start);
    }

    /** At boot, over an empty cache: finish the committed transaction, if any, and empty the log. */
    method RecoverFromLog()
      requires bc.Valid() && Holding(bc.bufs, bc.pins, [], {}) && DiskOk(bc.disk, g)
      modifies this`lh, bc, bc.lru
      ensures bc.Valid() && Holding(bc.bufs, bc.pins, [], {}) && lh == []
      ensures bc.disk == Recovered(old(bc.disk), g)
      ensures bc.history == old(bc.history) + RecoverTrace(old(bc.disk), g, |Head(old(bc.disk), g)| + 1)
      ensures forall i :: |old(bc.history)| <= i < |bc.history| ==>
        DiskOk(bc.history[i], g) && Recovered(bc.history[i], g) == Recovered(old(bc.disk), g)
    {
      hide RecoverDisk, RecoverTrace, Installed, InstallTrace, Recovered, Holding;
      ghost var d := bc.disk;
      ReadHead();
      InstallTrans(true, {});
      InstallInRecovery(d, g, |Head(d, g)|);
      RecoverLast(d, g);
      lh := [];
      WriteHead([], {});
      RecoverStable(d, g, |Head(d, g)| + 1);
      RecoveryKeeps(d, g);
    }

    /** Between commits: the log on disk is empty and exactly the logged blocks are pinned, once each. */
    ghost predicate Valid()
      reads this, bc, bc.lru
    {
      && bc.Valid()
      && LogOk(bc.disk, g, lh)
      && DiskOk(bc.disk, g) && Head(bc.disk, g) == []
      && PinnedFor(bc.bufs, bc.pins, lh)
      && (outstanding == 0 ==> lh == [])
    }

    /** `begin_op`; `false` where it would sleep. */
    method BeginOp() returns (ok: bool)
      requires Valid()
      modifies this`outstanding
      ensures Valid()
      ensures ok <==> !committing && |lh| + (old(outstanding) + 1) * MAXOPBLOCKS <= LOGSIZE
      ensures outstanding == old(outstanding) + if ok then 1 else 0
    {
      if committing {
        ok := false;
      } else if |lh| + (outstanding + 1) * MAXOPBLOCKS > LOGSIZE {
        ok := false;
      } else {
        outstanding := outstanding + 1;
        ok := true;
      }
    }

    /** `log_write` of the locked buffer `i`; `false` is one of its two panics. */
    method LogWrite(i: nat) returns (ok: bool)
      requires Valid() && i < NBUF && bc.bufs[i].locked && bc.bufs[i].valid && !InLog(g, bc.bufs[i].blockno)
      modifies this`lh, bc`bufs, bc`pins
      ensures Valid()
      ensures ok <==> |old(lh)| < LOGSIZE && |old(lh)| < g.size - 1 && outstanding >= 1
      ensures lh == if ok && bc.bufs[i].blockno !in old(lh) then old(lh) + [bc.bufs[i].blockno] else old(lh)
      ensures Mem(bc.bufs, bc.disk) == Mem(old(bc.bufs), bc.disk)
      ensures bc.bufs == old(bc.bufs)[i := bc.bufs[i]]
      ensures bc.bufs[i] == old(bc.bufs)[i].(refcnt := old(bc.bufs)[i].refcnt + |lh| - |old(lh)|)
    {
      if |lh| >= LOGSIZE || |lh| >= g.size - 1 { return false; }
      if outstanding < 1 { return false; }
      ok := true;
      var b := bc.bufs[i].blockno;
      var k := 0;
      while k < |lh| && lh[k] != b
        invariant 0 <= k <= |lh|
        invariant b !in lh[..k]
      {
        k := k + 1;
      }
      assert k == |lh| ==> lh[..k] == lh;
      if k == |lh| {
        bc.Bpin(i);
        PinnedMore(old(bc.bufs), old(bc.pins), bc.bufs, bc.pins, old(bc.disk), lh, i);
        lh := lh + [b];
      }
    }

    /**
     `end_op`: the last operation out commits for all. Every disk on the way recovers to what was
     there before, up to the header write, or to what the processes saw, from then on.
     */
    method EndOp(ghost d: Disk, ghost mem: Disk, ghost busy: set<nat>) returns (ok: bool)
      requires Valid() && outstanding >= 1 && !committing
      requires outstanding == 1 ==> Holding(bc.bufs, bc.pins, lh, busy) && Aside(bc.bufs, busy, lh, g) && Reading(bc.bufs, busy, bc.disk)
      requires d == bc.disk && mem == Mem(bc.bufs, bc.disk)
      modifies this, bc, bc.lru
      ensures outstanding == old(outstanding) - 1
      ensures outstanding > 0 ==> ok && lh == old(lh) && bc.history == old(bc.history) && bc.disk == d && Valid() && !committing && unchanged(bc)
      ensures outstanding == 0 ==> (ok <==> old(lh) == [] || |old(lh)| + |busy| < NBUF)
      ensures outstanding == 0 && ok ==>
        && Valid() && !committing && lh == []
        && Mem(bc.bufs, bc.disk) == bc.disk
        && SameHome(bc.disk, mem, g)
        && Holding(bc.bufs, bc.pins, [], busy) && SameOn(old(bc.bufs), bc.bufs, busy) && Reading(bc.bufs, busy, bc.disk)
        && (old(lh) == [] ==> bc.history == old(bc.history))
        && (old(lh) != [] ==> bc.history == old(bc.history) + CommitTrace(d, g, old(lh), mem, 2 * |old(lh)| + 2))
      ensures outstanding == 0 && ok ==> forall i :: |old(bc.history)| <= i < |bc.history| ==>
        RecoversTo(bc.history[i], g, if i - |old(bc.history)| < |old(lh)| then d else mem)
    {
      hide CommitDisk, CommitTrace, Holding, Aside, Reading, SameOn, RecoversTo;
      outstanding := outstanding - 1;
      ok := true;
      if outstanding == 0 {
        committing := true;
        ghost var blocks := lh;
        AllButLogged(bc.bufs, bc.pins, d, blocks, busy);
        ok := Commit(d, mem, busy);
        if !ok { return; }
        committing := false;
        if blocks != [] { CommitRecovers(d, g, blocks, mem); }
        CommitDone(d, g, blocks, mem);
        ReadingAfter(old(bc.bufs), bc.bufs, busy, d, bc.disk, blocks, mem, g);
        AllClean(bc.bufs, bc.pins, bc.disk, busy);
        HoldingPins(bc.bufs, bc.pins, [], busy);
      }
    }

    // ---- what operations do in between ----

    /** `bread`, whoever calls it: what is logged stays pinned and cached. */
    method Fetch(b: nat) returns (r: Option<nat>)
      requires Valid() && b < |bc.disk| && forall i: nat :: Holds(bc.bufs, i, b) ==> !bc.bufs[i].locked
      modifies bc`bufs
      ensures Valid()
      ensures r.None? <==> !Cached(old(bc.bufs), b) && forall i :: 0 <= i < NBUF ==> old(bc.bufs)[i].refcnt > 0
      ensures r.None? ==> bc.bufs == old(bc.bufs)
      ensures r.Some? ==> r.value < NBUF == |bc.bufs| && Holds(bc.bufs, r.value, b) && bc.bufs == old(bc.bufs)[r.value := bc.bufs[r.value]]
      ensures r.Some? ==>
        var i := r.value;
        && bc.bufs[i].locked && bc.bufs[i].valid && bc.bufs[i].refcnt == old(bc.bufs)[i].refcnt + 1
        && bc.bufs[i].data == Mem(old(bc.bufs), bc.disk)[b] && (b !in lh ==> bc.bufs[i].data == bc.disk[b])
        && (old(bc.bufs)[i].refcnt > 0 || Cached(old(bc.bufs), b) ==> Holds(old(bc.bufs), i, b))
      ensures Mem(bc.bufs, bc.disk) == Mem(old(bc.bufs), bc.disk)
    {
      r := bc.Bread(ROOTDEV, b);
      if r.Some? { PinnedRead(old(bc.bufs), bc.bufs, bc.pins, bc.disk, lh, r.value, b); }
    }

    /** A lock holder changes the data. */
    method Change(i: nat, data: Block)
      requires Valid() && i < NBUF && bc.bufs[i].locked && bc.bufs[i].valid
      modifies bc`bufs
      ensures Valid()
      ensures bc.bufs == old(bc.bufs)[i := old(bc.bufs)[i].(data := data)]
      ensures bc.bufs[i].blockno < |bc.disk| && Mem(bc.bufs, bc.disk) == Mem(old(bc.bufs), bc.disk)[bc.bufs[i].blockno := data]
    {
      bc.SetData(i, data);
      PinnedSame(old(bc.bufs), bc.bufs, bc.pins, lh, i);
    }

    /** `brelse`: of a logged block, or of one that was only read. */
    method Release(i: nat)
      requires Valid() && i < NBUF && bc.bufs[i].locked && bc.bufs[i].valid
      requires bc.bufs[i].blockno !in lh ==> bc.bufs[i].blockno < |bc.disk| && bc.bufs[i].data == bc.disk[bc.bufs[i].blockno]
      modifies bc`bufs, bc`cycle, bc.lru
      ensures Valid()
      ensures old(bc.bufs)[i].refcnt > 0 && bc.bufs == old(bc.bufs)[i := Released(old(bc.bufs)[i])]
      ensures Mem(bc.bufs, bc.disk) == Mem(old(bc.bufs), bc.disk)
    {
      bc.Brelse(i);
      PinnedSame(old(bc.bufs), bc.bufs, bc.pins, lh, i);
    }

    /** Change, log and release a locked buffer; `false` is a panic of `log_write`. */
    method Put(i: nat, data: Block) returns (ok: bool)
      requires Valid() && i < NBUF && bc.bufs[i].locked && bc.bufs[i].valid && !InLog(g, bc.bufs[i].blockno)
      modifies this`lh, bc`bufs, bc`pins, bc`cycle, bc.lru
      ensures ok <==> |old(lh)| < LOGSIZE && |old(lh)| < g.size - 1 && outstanding >= 1
      ensures ok ==>
        var was := old(bc.bufs)[i];
        && Valid() && lh == (if was.blockno in old(lh) then old(lh) else old(lh) + [was.blockno])
        && |bc.bufs| == NBUF && bc.bufs == old(bc.bufs)[i := bc.bufs[i]] && was.refcnt > 0
        && bc.bufs[i] == was.(data := data, locked := false, refcnt := was.refcnt - 1 + |lh| - |old(lh)|)
        && was.blockno < |bc.disk| && Mem(bc.bufs, bc.disk) == Mem(old(bc.bufs), bc.disk)[was.blockno := data]
    {
      hide Mem, PinnedFor, LogOk, DiskOk, LruOk;
      Change(i, data);
      ok := LogWrite(i);
      if ok { Release(i); }
    }

    /** One change as operations make it; `false` is a panic, of `bget` or of `log_write`. */
    method Update(b: nat, data: Block, ghost busy: set<nat>) returns (ok: bool)
      requires Valid() && b < |bc.disk| && !InLog(g, b) && Holding(bc.bufs, bc.pins, lh, busy)
      requires Unheld(bc.bufs, busy, b)
      modifies this`lh, bc, bc.lru
      ensures ok <==>
        && (Cached(old(bc.bufs), b) || exists i :: 0 <= i < NBUF && old(bc.bufs)[i].refcnt == 0)
        && |old(lh)| < LOGSIZE && |old(lh)| < g.size - 1 && outstanding >= 1
      ensures bc.disk == old(bc.disk) && bc.history == old(bc.history)
      ensures ok ==> Valid() && Holding(bc.bufs, bc.pins, lh, busy) && SameOn(old(bc.bufs), bc.bufs, busy)
      ensures ok ==> lh == if b in old(lh) then old(lh) else old(lh) + [b]
      ensures ok ==> Mem(bc.bufs, bc.disk) == Mem(old(bc.bufs), old(bc.disk))[b := data]
    {
      Unlocked(bc.bufs, bc.pins, lh, busy, b);
      assert |bc.bufs| == NBUF;
      hide Mem, CacheOk, PinnedFor, LogOk, DiskOk, Holding, LruOk;
      var r := Fetch(b);
      if r.None? { return false; }
      ok := Put(r.value, data);
      if ok {
        assert bc.bufs == old(bc.bufs)[r.value := bc.bufs[r.value]];
        UpdateHolding(old(bc.bufs), bc.bufs, old(bc.pins), bc.pins, bc.disk, old(lh), lh, busy, r.value, b);
      }
    }

    /** The changes of an operation, one after the other; `false` is a panic. */
    method Updates(writes: seq<(nat, Block)>, ghost busy: set<nat>) returns (ok: bool)
      requires Valid() && outstanding >= 1
      requires Holding(bc.bufs, bc.pins, lh, busy) && Aside(bc.bufs, busy, lh, g)
      requires forall k :: 0 <= k < |writes| ==> writes[k].0 < |bc.disk| && !InLog(g, writes[k].0) && Unheld(bc.bufs, busy, writes[k].0)
      modifies this`lh, bc, bc.lru
      ensures RoomFor(old(lh), writes, g) && |Touched(old(lh), writes, |writes|)| + |busy| < NBUF ==> ok
      ensures ok ==> RoomFor(old(lh), writes, g)
      ensures bc.disk == old(bc.disk) && bc.history == old(bc.history)
      ensures ok ==> Valid() && Elements(lh) == Touched(old(lh), writes, |writes|) && |lh| == |Elements(lh)|
      ensures ok ==> Holding(bc.bufs, bc.pins, lh, busy) && SameOn(old(bc.bufs), bc.bufs, busy) && Aside(bc.bufs, busy, lh, g)
      ensures ok ==> Mem(bc.bufs, bc.disk) == Written(Mem(old(bc.bufs), bc.disk), writes, |writes|)
    {
      hide PinnedFor, Mem, Holding, Aside, SameOn, LogOk, DiskOk, LruOk, Written, Touched, RoomFor, Elements;
      ghost var mem, lh0 := Mem(bc.bufs, bc.disk), lh;
      WrittenMore(mem, writes, 0);
      SameAtStart(bc.bufs, busy);
      TouchedNone(bc.disk, g, lh, writes);
      ok := true;
      var k := 0;
      while k < |writes|
        invariant 0 <= k <= |writes| && ok && Valid()
        invariant bc.disk == old(bc.disk) && bc.history == old(bc.history)
        invariant Holding(bc.bufs, bc.pins, lh, busy) && SameOn(old(bc.bufs), bc.bufs, busy) && Aside(bc.bufs, busy, lh, g)
        invariant Mem(bc.bufs, bc.disk) == Written(mem, writes, k)
        invariant Elements(lh) == Touched(lh0, writes, k) && |lh| == |Elements(lh)| && RoomUpTo(lh0, writes, g, k)
      {
        ghost var was, before := bc.bufs, lh;
        Ready(old(bc.bufs), bc.bufs, bc.pins, bc.disk, lh, busy, g, writes[k].0);
        WrittenMore(mem, writes, k + 1);
        TouchedMore(bc.disk, g, lh0, lh, writes, k);
        ok := Update(writes[k].0, writes[k].1, busy);
        if !ok { return; }
        AsideMore(old(bc.bufs), was, bc.bufs, busy, before, lh, g, writes[k].0);
        k := k + 1;
      }
      RoomAll(lh0, writes, g);
    }

    /**
     A whole operation beside others, which hold other blocks and, when none of them is in an operation,
     only read: `begin_op`, the changes, `end_op`. It is admitted or has to sleep. Within its budget it
     succeeds, and if it is the last one out, all of its changes are on the disk after recovery or none is,
     whenever the power fails.
     */
    method Operation(writes: seq<(nat, Block)>, ghost busy: set<nat>) returns (admitted: bool, ok: bool)
      requires Valid()
      requires Holding(bc.bufs, bc.pins, lh, busy) && Aside(bc.bufs, busy, lh, g)
      requires outstanding == 0 ==> Reading(bc.bufs, busy, bc.disk)
      requires forall k :: 0 <= k < |writes| ==> writes[k].0 < |bc.disk| && !InLog(g, writes[k].0) && Unheld(bc.bufs, busy, writes[k].0)
      modifies this, bc, bc.lru
      ensures admitted <==> !old(committing) && |old(lh)| + (old(outstanding) + 1) * MAXOPBLOCKS <= LOGSIZE
      ensures !admitted ==> unchanged(this) && unchanged(bc)
      ensures admitted && RoomFor(old(lh), writes, g) && |Touched(old(lh), writes, |writes|)| + |busy| < NBUF ==> ok
      ensures admitted && ok ==> RoomFor(old(lh), writes, g) && Valid() && outstanding == old(outstanding) && !committing
      ensures admitted && ok ==> Holding(bc.bufs, bc.pins, lh, busy) && SameOn(old(bc.bufs), bc.bufs, busy)
      ensures admitted && ok && outstanding > 0 ==>
        && bc.disk == old(bc.disk) && bc.history == old(bc.history) && Elements(lh) == Touched(old(lh), writes, |writes|)
        && Mem(bc.bufs, bc.disk) == Written(Mem(old(bc.bufs), bc.disk), writes, |writes|)
      ensures admitted && ok && outstanding == 0 ==>
        && lh == [] && Mem(bc.bufs, bc.disk) == bc.disk && SameHome(bc.disk, Written(old(bc.disk), writes, |writes|), g)
        && forall i :: |old(bc.history)| <= i < |bc.history| ==>
             RecoversTo(bc.history[i], g, old(bc.disk)) || RecoversTo(bc.history[i], g, bc.disk)
    {
      hide PinnedFor, CacheOk, Mem, Holding, Aside, Reading, SameOn, RecoversTo, LogOk, DiskOk, LruOk, Written, Touched, RoomFor, Elements;
      ghost var d := bc.disk;
      if outstanding == 0 { AllClean(bc.bufs, bc.pins, bc.disk, busy); }
      ok := false;
      admitted := BeginOp();
      if !admitted { return; }
      ok := Updates(writes, busy);
      if !ok { return; }
      if outstanding == 1 { StillReading(old(bc.bufs), bc.bufs, busy, d); }
      ghost var mem, n, was := Mem(bc.bufs, bc.disk), |bc.history|, bc.bufs;
      ok := EndOp(d, mem, busy);
      if ok && outstanding == 0 {
        AllRecover(bc.history, n, g, d, mem, bc.disk);
        SameTwice(old(bc.bufs), was, bc.bufs, busy);
      }
    }
  }

  /** The blocks in the log after the first `k` changes. */
  ghost function Touched(lh: seq<nat>, writes: seq<(nat, Block)>, k: nat): set<nat>
    requires k <= |writes|
  {
    Elements(lh) + Blocks(writes, k)
  }

  /** The blocks that the first `k` changes go to. */
  ghost function Blocks(writes: seq<(nat, Block)>, k: nat): set<nat>
    requires k <= |writes|
  {
    set i | 0 <= i < k :: writes[i].0
  }

  lemma BlocksMore(writes: seq<(nat, Block)>, k: nat)
    requires k <= |writes|
    ensures Blocks(writes, 0) == {} && Blocks(writes, k) <= Blocks(writes, |writes|)
    ensures k < |writes| ==> Blocks(writes, k + 1) == Blocks(writes, k) + {writes[k].0}
  {
    forall b | b in Blocks(writes, k) ensures b in Blocks(writes, |writes|) { var i :| 0 <= i < k && writes[i].0 == b; }
    if k < |writes| {
      forall b | b in Blocks(writes, k) ensures b in Blocks(writes, k + 1) { var i :| 0 <= i < k && writes[i].0 == b; }
      assert writes[k].0 in Blocks(writes, k + 1);
    }
  }

  /** One block more in the log, once. */
  lemma AbsorbOne(d: Disk, g: Geometry, lh: seq<nat>, b: nat)
    requires LogOk(d, g, lh)
    ensures var more := if b in lh then lh else lh + [b]; Elements(more) == Elements(lh) + {b} && |more| == |Elements(more)|
    ensures |lh| == |Elements(lh)|
  {
    DistinctSize(lh);
    DistinctSize(if b in lh then lh else lh + [b]);
  }

  /** The guard of `log_write` lets the first `k` changes through. */
  ghost predicate RoomUpTo(lh: seq<nat>, writes: seq<(nat, Block)>, g: Geometry, k: nat) {
    forall i :: 0 <= i < k <= |writes| ==> |Touched(lh, writes, i)| < LOGSIZE && |Touched(lh, writes, i)| < g.size - 1
  }

  ghost predicate RoomFor(lh: seq<nat>, writes: seq<(nat, Block)>, g: Geometry) {
    RoomUpTo(lh, writes, g, |writes|)
  }

  lemma RoomAll(lh: seq<nat>, writes: seq<(nat, Block)>, g: Geometry)
    ensures RoomFor(lh, writes, g) <==> RoomUpTo(lh, writes, g, |writes|)
  {
  }

  lemma TouchedNone(d: Disk, g: Geometry, lh: seq<nat>, writes: seq<(nat, Block)>)
    requires LogOk(d, g, lh)
    ensures Elements(lh) == Touched(lh, writes, 0) && |lh| == |Elements(lh)| && RoomUpTo(lh, writes, g, 0)
  {
    DistinctSize(lh);
    BlocksMore(writes, 0);
  }

  /** What one change more does to the log, and what it takes to be let through. */
  lemma TouchedMore(d: Disk, g: Geometry, lh0: seq<nat>, lh: seq<nat>, writes: seq<(nat, Block)>, k: nat)
    requires k < |writes| && LogOk(d, g, lh) && Elements(lh) == Touched(lh0, writes, k)
    ensures var b := writes[k].0;
      var more := if b in lh then lh else lh + [b];
      && Elements(more) == Touched(lh0, writes, k + 1) && |more| == |Elements(more)|
      && |lh| <= |Touched(lh0, writes, |writes|)|
    ensures RoomFor(lh0, writes, g) ==> |lh| < LOGSIZE && |lh| < g.size - 1
    ensures RoomUpTo(lh0, writes, g, k) && |lh| < LOGSIZE && |lh| < g.size - 1 ==> RoomUpTo(lh0, writes, g, k + 1)
  {
    TouchedSets(lh0, writes, k);
    AbsorbOne(d, g, lh, writes[k].0);
    RoomMore(lh0, writes, g, k);
    hide *;
  }

  lemma TouchedSets(lh: seq<nat>, writes: seq<(nat, Block)>, k: nat)
    requires k < |writes|
    ensures Touched(lh, writes, k + 1) == Touched(lh, writes, k) + {writes[k].0}
    ensures |Touched(lh, writes, k)| <= |Touched(lh, writes, |writes|)|
  {
    BlocksMore(writes, k);
    hide Blocks, Elements;
    SubsetSize(Touched(lh, writes, k), Touched(lh, writes, |writes|));
  }

  lemma RoomMore(lh: seq<nat>, writes: seq<(nat, Block)>, g: Geometry, k: nat)
    requires k < |writes|
    ensures RoomFor(lh, writes, g) ==> |Touched(lh, writes, k)| < LOGSIZE && |Touched(lh, writes, k)| < g.size - 1
    ensures RoomUpTo(lh, writes, g, k) && |Touched(lh, writes, k)| < LOGSIZE && |Touched(lh, writes, k)| < g.size - 1 ==>
      RoomUpTo(lh, writes, g, k + 1)
  {
    hide Touched;
  }

  /** An operation that is admitted and keeps to its budget of distinct blocks is let through by a log of more than 21 blocks. */
  lemma BudgetRoom(d: Disk, lh: seq<nat>, writes: seq<(nat, Block)>, g: Geometry, outstanding: nat)
    requires LogOk(d, g, lh) && (outstanding == 0 ==> lh == []) && |lh| + (outstanding + 1) * MAXOPBLOCKS <= LOGSIZE
    requires |Blocks(writes, |writes|)| <= MAXOPBLOCKS && 2 * MAXOPBLOCKS + 1 < g.size
    ensures RoomFor(lh, writes, g) && |Touched(lh, writes, |writes|)| <= 2 * MAXOPBLOCKS
  {
    DistinctSize(lh);
    assert |lh| <= MAXOPBLOCKS;
    hide Elements, Blocks, LogOk;
    forall k | 0 <= k <= |writes| ensures |Touched(lh, writes, k)| <= 2 * MAXOPBLOCKS {
      BlocksMore(writes, k);
      SubsetSize(Blocks(writes, k), Blocks(writes, |writes|));
      assert |Elements(lh) + Blocks(writes, k)| <= |Elements(lh)| + |Blocks(writes, k)|;
    }
  }

  lemma {:induction false} BlocksFew(writes: seq<(nat, Block)>, k: nat)
    requires k <= |writes|
    ensures |Blocks(writes, k)| <= k
  {
    BlocksMore(writes, if k == 0 then 0 else k - 1);
    hide Blocks;
    if k > 0 { BlocksFew(writes, k - 1); }
  }

  /** With an empty log, at most MAXOPBLOCKS changes need only as many blocks for copies. */
  lemma ShortRoom(writes: seq<(nat, Block)>, g: Geometry)
    requires |writes| <= MAXOPBLOCKS < g.size
    ensures RoomFor([], writes, g) && |Touched([], writes, |writes|)| <= MAXOPBLOCKS
  {
    assert Elements<nat>([]) == {};
    forall k | 0 <= k <= |writes| ensures |Touched([], writes, k)| <= k {
      BlocksFew(writes, k);
      assert {} + Blocks(writes, k) == Blocks(writes, k);
    }
  }

  lemma AllRecover(history: seq<Disk>, n: nat, g: Geometry, d: Disk, mem: Disk, e: Disk)
    requires SameHome(e, mem, g)
    requires forall i :: n <= i < |history| ==> RecoversTo(history[i], g, d) || RecoversTo(history[i], g, mem)
    ensures forall i :: n <= i < |history| ==> RecoversTo(history[i], g, d) || RecoversTo(history[i], g, e)
  {
    hide RecoversTo;
    forall i | n <= i < |history| ensures RecoversTo(history[i], g, d) || RecoversTo(history[i], g, e) {
      if RecoversTo(history[i], g, mem) { RecoversSame(history[i], g, mem, e); }
    }
  }

  /** Nobody holds the buffer of block `b`. */
  ghost predicate Unheld(bufs: seq<Buf>, busy: set<nat>, b: nat) {
    forall i: nat :: Holds(bufs, i, b) ==> i !in busy
  }

  /** The disk `d` after the first `k` changes. */
  ghost function Written(d: Disk, writes: seq<(nat, Block)>, k: nat): (r: Disk)
    requires k <= |writes| && forall i :: 0 <= i < |writes| ==> writes[i].0 < |d|
    ensures |r| == |d|
  {
    if k == 0 then d else Written(d, writes, k - 1)[writes[k - 1].0 := writes[k - 1].1]
  }

  /** Reading a block in, or finding it, does not touch what is pinned: only a free buffer is recycled. */
  lemma PinnedRead(bufs: seq<Buf>, bufs': seq<Buf>, pins: seq<nat>, disk: Disk, blocks: seq<nat>, i: nat, b: nat)
    requires CacheOk(bufs, pins, disk) && PinnedFor(bufs, pins, blocks)
    requires |bufs'| == NBUF && i < NBUF && bufs' == bufs[i := bufs'[i]] && Holds(bufs', i, b)
    requires bufs[i].refcnt > 0 || Cached(bufs, b) ==> Holds(bufs, i, b)
    ensures PinnedFor(bufs', pins, blocks)
  {
    forall c | c in blocks ensures Cached(bufs', c) {
      var j := BufOf(bufs, c);
      assert Holds(bufs', j, c);
    }
  }

  lemma PinnedSame(bufs: seq<Buf>, bufs': seq<Buf>, pins: seq<nat>, blocks: seq<nat>, i: nat)
    requires PinnedFor(bufs, pins, blocks) && i < NBUF == |bufs'| && bufs' == bufs[i := bufs'[i]]
    requires bufs'[i].dev == bufs[i].dev && bufs'[i].blockno == bufs[i].blockno
    ensures PinnedFor(bufs', pins, blocks)
  {
    forall c | c in blocks ensures Cached(bufs', c) { assert Holds(bufs', BufOf(bufs, c), c); }
  }

  /** After a change the buffer has no reference but the pin. */
  lemma UpdateHolding(bufs: seq<Buf>, bufs': seq<Buf>, pins: seq<nat>, pins': seq<nat>, disk: Disk,
                      lh: seq<nat>, lh': seq<nat>, busy: set<nat>, i: nat, b: nat)
    requires CacheOk(bufs', pins', disk) && Holding(bufs, pins, lh, busy) && PinnedFor(bufs', pins', lh')
    requires i < NBUF && bufs' == bufs[i := bufs'[i]] && Holds(bufs', i, b) && !bufs'[i].locked
    requires bufs[i].refcnt > 0 || Cached(bufs, b) ==> Holds(bufs, i, b)
    requires Unheld(bufs, busy, b)
    requires lh' == if b in lh then lh else lh + [b]
    requires bufs'[i].refcnt == bufs[i].refcnt + |lh'| - |lh|
    ensures Holding(bufs', pins', lh', busy) && SameOn(bufs, bufs', busy)
  {
    forall j: nat | j < NBUF && j != i ensures pins'[j] == pins[j] {
      assert bufs[j].dev == ROOTDEV && bufs[j].blockno == b ==> Holds(bufs', j, b);
    }
    assert i !in busy;
  }

  lemma WrittenMore(d: Disk, writes: seq<(nat, Block)>, k: nat)
    requires k <= |writes| && forall i :: 0 <= i < |writes| ==> writes[i].0 < |d|
    ensures Written(d, writes, 0) == d
    ensures k > 0 ==> Written(d, writes, k) == Written(d, writes, k - 1)[writes[k - 1].0 := writes[k - 1].1]
  {
  }

  lemma Unlocked(bufs: seq<Buf>, pins: seq<nat>, blocks: seq<nat>, busy: set<nat>, b: nat)
    requires Holding(bufs, pins, blocks, busy) && Unheld(bufs, busy, b)
    ensures forall i: nat :: Holds(bufs, i, b) ==> !bufs[i].locked
  {
  }

  /** What the next change needs to know of the cache. */
  lemma Ready(bufs: seq<Buf>, bufs': seq<Buf>, pins: seq<nat>, disk: Disk, blocks: seq<nat>, busy: set<nat>, g: Geometry, b: nat)
    requires SameOn(bufs, bufs', busy) && Unheld(bufs, busy, b) && CacheOk(bufs', pins, disk)
    requires Holding(bufs', pins, blocks, busy) && Aside(bufs', busy, blocks, g) && LogOk(disk, g, blocks)
    ensures Unheld(bufs', busy, b) && forall i :: i in busy && i < |bufs'| ==> bufs'[i].dev == ROOTDEV
    ensures |blocks| + |busy| < NBUF ==> exists i :: 0 <= i < NBUF == |bufs'| && bufs'[i].refcnt == 0
  {
    FreeBuffers(bufs', pins, disk, blocks, busy, g);
    forall i: nat | Holds(bufs', i, b) ensures i !in busy {
      assert i in busy ==> Holds(bufs, i, b);
    }
  }

  /** A commit does not write what other processes read. */
  lemma ReadingAfter(bufs: seq<Buf>, bufs': seq<Buf>, busy: set<nat>, d: Disk, d': Disk, blocks: seq<nat>, mem: Disk, g: Geometry)
    requires SameOn(bufs, bufs', busy) && Reading(bufs, busy, d) && Aside(bufs, busy, blocks, g)
    requires |mem| == |d| && SameHome(d', Updated(d, blocks, mem), g)
    ensures Reading(bufs', busy, d')
  {
  }

  lemma StillReading(bufs: seq<Buf>, bufs': seq<Buf>, busy: set<nat>, disk: Disk)
    requires SameOn(bufs, bufs', busy) && Reading(bufs, busy, disk)
    ensures Reading(bufs', busy, disk)
  {
  }

  /** Pinning one more logged block's buffer. */
  lemma PinnedMore(bufs: seq<Buf>, pins: seq<nat>, bufs': seq<Buf>, pins': seq<nat>, disk: Disk, blocks: seq<nat>, i: nat)
    requires CacheOk(bufs, pins, disk) && PinnedFor(bufs, pins, blocks) && i < NBUF && bufs[i].dev == ROOTDEV
    requires bufs[i].blockno !in blocks
    requires pins' == pins[i := pins[i] + 1]
    requires bufs' == bufs[i := bufs[i].(refcnt := bufs[i].refcnt + 1)]
    ensures PinnedFor(bufs', pins', blocks + [bufs[i].blockno])
  {
    var b := bufs[i].blockno;
    assert Holds(bufs, i, b) && Holds(bufs', i, b);
    forall j: nat | j < NBUF ensures pins'[j] == if HoldsAny(bufs'[j], blocks + [b]) then 1 else 0 {
      assert j != i && bufs[j].dev == ROOTDEV ==> Holds(bufs, j, bufs[j].blockno);
    }
    forall c | c in blocks ensures Cached(bufs', c) {
      assert Holds(bufs', BufOf(bufs, c), c);
    }
  }

  /** Every block that is not logged looks the same in the cache and on the disk. */
  lemma AllButLogged(bufs: seq<Buf>, pins: seq<nat>, disk: Disk, blocks: seq<nat>, busy: set<nat>)
    requires CacheOk(bufs, pins, disk) && Holding(bufs, pins, blocks, busy) && Reading(bufs, busy, disk)
    ensures Updated(disk, blocks, Mem(bufs, disk)) == Mem(bufs, disk)
  {
    forall b: nat | b < |disk| && b !in blocks ensures View(bufs, disk, b) == disk[b] {
      if !Cached(bufs, b) || BufOf(bufs, b) !in busy { CleanView(bufs, disk, pins, b); }
    }
  }

  lemma AllClean(bufs: seq<Buf>, pins: seq<nat>, disk: Disk, busy: set<nat>)
    requires CacheOk(bufs, pins, disk) && Holding(bufs, pins, [], busy) && Reading(bufs, busy, disk)
    ensures Mem(bufs, disk) == disk
  {
    AllButLogged(bufs, pins, disk, [], busy);
  }

  /** What is left to install after `tail` blocks. */
  lemma Suffix(d: Disk, g: Geometry, lh: seq<nat>, tail: nat)
    requires LogOk(d, g, lh) && tail < |lh|
    ensures Distinct(lh[tail..]) && lh[tail..][0] == lh[tail]
    ensures Left(lh[tail..], true) == lh[tail + 1..]
    ensures g.start + tail + 1 !in lh[tail..]
  {
  }

  /** A block of the log looks the same in the cache and on the disk. */
  lemma Clean(bufs: seq<Buf>, disk: Disk, pins: seq<nat>, blocks: seq<nat>, busy: set<nat>, g: Geometry, b: nat)
    requires CacheOk(bufs, pins, disk) && Holding(bufs, pins, blocks, busy) && Aside(bufs, busy, blocks, g)
    requires InLog(g, b) && b !in blocks && b < |disk|
    ensures View(bufs, disk, b) == disk[b]
  {
    CleanView(bufs, disk, pins, b);
  }

  /** How many buffers `blocks` and the processes leave free. */
  lemma FreeBuffers(bufs: seq<Buf>, pins: seq<nat>, disk: Disk, blocks: seq<nat>, busy: set<nat>, g: Geometry)
    requires CacheOk(bufs, pins, disk) && Holding(bufs, pins, blocks, busy) && Aside(bufs, busy, blocks, g) && Distinct(blocks)
    ensures (exists i :: 0 <= i < NBUF && bufs[i].refcnt == 0) <==> |blocks| + |busy| < NBUF
    ensures |blocks| + |busy| <= NBUF
    ensures |blocks| + |busy| == NBUF ==> forall b :: Cached(bufs, b) ==> b in blocks || !InLog(g, b)
  {
    var used := InUse(bufs, blocks, busy);
    InUseIs(bufs, pins, disk, blocks, busy, g);
    SetPigeonhole(used, NBUF);
    hide Holding, CacheOk, Aside, InUse;
    if |used| < NBUF {
      var i: nat :| i < NBUF && i !in used;
      assert bufs[i].refcnt == 0;
    }
  }

  /** The buffers that `blocks` pin or processes hold. */
  ghost function InUse(bufs: seq<Buf>, blocks: seq<nat>, busy: set<nat>): set<nat>
    requires forall b :: b in blocks ==> Cached(bufs, b)
  {
    Elements(PinnedAt(bufs, blocks)) + busy
  }

  lemma InUseIs(bufs: seq<Buf>, pins: seq<nat>, disk: Disk, blocks: seq<nat>, busy: set<nat>, g: Geometry)
    requires CacheOk(bufs, pins, disk) && Holding(bufs, pins, blocks, busy) && Aside(bufs, busy, blocks, g) && Distinct(blocks)
    ensures |bufs| == NBUF && |InUse(bufs, blocks, busy)| == |blocks| + |busy| && (forall i :: i in InUse(bufs, blocks, busy) ==> i < NBUF)
    ensures forall i: nat :: i < NBUF ==> (bufs[i].refcnt > 0 <==> i in InUse(bufs, blocks, busy))
    ensures forall i: nat :: i in InUse(bufs, blocks, busy) && i < NBUF ==> bufs[i].blockno in blocks || !InLog(g, bufs[i].blockno)
  {
    var at := PinnedAt(bufs, blocks);
    PinnedAtIs(bufs, pins, disk, blocks);
    DistinctSize(at);
    hide CacheOk, PinnedAt;
    assert Elements(at) !! busy;
  }

  /** The buffers of `blocks`. */
  ghost function PinnedAt(bufs: seq<Buf>, blocks: seq<nat>): (at: seq<nat>)
    requires forall b :: b in blocks ==> Cached(bufs, b)
    ensures |at| == |blocks| && forall k :: 0 <= k < |at| ==> Holds(bufs, at[k], blocks[k])
  {
    seq(|blocks|, k requires 0 <= k < |blocks| => BufOf(bufs, blocks[k]))
  }

  lemma PinnedAtIs(bufs: seq<Buf>, pins: seq<nat>, disk: Disk, blocks: seq<nat>)
    requires CacheOk(bufs, pins, disk) && PinnedFor(bufs, pins, blocks) && Distinct(blocks)
    ensures Distinct(PinnedAt(bufs, blocks))
    ensures forall i: nat :: i < NBUF && HoldsAny(bufs[i], blocks) <==> i in PinnedAt(bufs, blocks)
  {
    var at := PinnedAt(bufs, blocks);
    forall i: nat | i < NBUF && HoldsAny(bufs[i], blocks) ensures i in at {
      var k :| 0 <= k < |blocks| && blocks[k] == bufs[i].blockno;
      assert Holds(bufs, i, blocks[k]) && Holds(bufs, at[k], blocks[k]);
    }
  }

  lemma HoldingPins(bufs: seq<Buf>, pins: seq<nat>, blocks: seq<nat>, busy: set<nat>)
    requires Holding(bufs, pins, blocks, busy)
    ensures PinnedFor(bufs, pins, blocks)
  {
  }

  lemma SameAtStart(bufs: seq<Buf>, busy: set<nat>)
    ensures SameOn(bufs, bufs, busy)
  {
  }

  lemma SameTwice(bufs: seq<Buf>, bufs': seq<Buf>, bufs'': seq<Buf>, busy: set<nat>)
    requires SameOn(bufs, bufs', busy) && SameOn(bufs', bufs'', busy)
    ensures SameOn(bufs, bufs'', busy)
  {
  }

  /** What processes hold stays as it is, and so aside. */
  lemma StillAside(bufs: seq<Buf>, bufs': seq<Buf>, bufs'': seq<Buf>, busy: set<nat>, blocks: seq<nat>, g: Geometry)
    requires SameOn(bufs, bufs', busy) && SameOn(bufs', bufs'', busy) && Aside(bufs', busy, blocks, g)
    ensures SameOn(bufs, bufs'', busy) && Aside(bufs'', busy, blocks, g)
  {
  }

  lemma AsideMore(bufs: seq<Buf>, bufs': seq<Buf>, bufs'': seq<Buf>, busy: set<nat>, lh: seq<nat>, lh': seq<nat>, g: Geometry, b: nat)
    requires SameOn(bufs, bufs', busy) && SameOn(bufs', bufs'', busy) && Aside(bufs', busy, lh, g)
    requires Unheld(bufs', busy, b) && (forall i :: i in busy && i < |bufs'| ==> bufs'[i].dev == ROOTDEV)
    requires lh' == if b in lh then lh else lh + [b]
    ensures SameOn(bufs, bufs'', busy) && Aside(bufs'', busy, lh', g)
  {
    forall i | i in busy ensures i < |bufs''| && bufs''[i].blockno !in lh' { assert bufs'[i].blockno == b ==> Holds(bufs', i, b); }
  }

  /** Nobody has locked a block of the log. */
  lemma NotBusy(bufs: seq<Buf>, pins: seq<nat>, blocks: seq<nat>, busy: set<nat>, g: Geometry, b: nat)
    requires Holding(bufs, pins, blocks, busy) && Aside(bufs, busy, blocks, g) && InLog(g, b)
    ensures forall i: nat :: Holds(bufs, i, b) ==> !bufs[i].locked
  {
  }

  /** The buffer that a block of the log gets was free. */
  lemma Recycles(bufs: seq<Buf>, pins: seq<nat>, bufs': seq<Buf>, blocks: seq<nat>, busy: set<nat>, g: Geometry, l: nat, logb: nat)
    requires Holding(bufs, pins, blocks, busy) && Aside(bufs, busy, blocks, g) && l < NBUF && InLog(g, logb) && logb !in blocks
    requires bufs[l].refcnt > 0 ==> Holds(bufs, l, logb)
    ensures bufs[l].refcnt == 0 && l !in busy
  {
  }

  /** Locking the log block's buffer leaves the pinned blocks cached, and the home block's buffer unlocked. */
  lemma StillCached(bufs: seq<Buf>, pins: seq<nat>, bufs': seq<Buf>, disk: Disk, blocks: seq<nat>, busy: set<nat>,
                    g: Geometry, l: nat, logb: nat, homeb: nat)
    requires CacheOk(bufs, pins, disk) && Holding(bufs, pins, blocks, busy) && Aside(bufs, busy, blocks, g)
    requires |bufs'| == NBUF && l < NBUF && InLog(g, logb) && logb !in blocks && logb != homeb
    requires bufs' == bufs[l := bufs'[l]] && Holds(bufs', l, logb)
    requires bufs[l].refcnt > 0 ==> Holds(bufs, l, logb)
    requires homeb in blocks || (blocks == [] && busy == {})
    ensures bufs[l].refcnt == 0 && l !in busy
    ensures homeb in blocks ==> Cached(bufs', homeb) && forall i: nat :: Holds(bufs', i, homeb) ==> Holds(bufs, i, homeb) && i !in busy
    ensures homeb !in blocks ==> bufs'[if l == 0 then 1 else 0].refcnt == 0
    ensures forall i: nat :: Holds(bufs', i, homeb) ==> !bufs'[i].locked
  {
    if homeb in blocks {
      var i := BufOf(bufs, homeb);
      assert i != l && Holds(bufs', i, homeb);
    }
  }

  lemma HoldingKept(bufs: seq<Buf>, bufs': seq<Buf>, pins: seq<nat>, blocks: seq<nat>, busy: set<nat>, l: nat, logb: nat)
    requires Holding(bufs, pins, blocks, busy) && |bufs'| == NBUF && l < NBUF && logb !in blocks
    requires bufs' == bufs[l := bufs'[l]] && Holds(bufs', l, logb) && !bufs'[l].locked
    requires bufs[l].refcnt == bufs'[l].refcnt == 0
    ensures Holding(bufs', pins, blocks, busy) && SameOn(bufs, bufs', busy)
  {
    forall b | b in blocks ensures Cached(bufs', b) {
      var i := BufOf(bufs, b);
      assert i != l;
      assert Holds(bufs', i, b);
    }
  }

  lemma HoldingAfter(bufs: seq<Buf>, bufs': seq<Buf>, pins: seq<nat>, pins': seq<nat>, disk: Disk,
                     blocks: seq<nat>, busy: set<nat>, l: nat, h: nat, logb: nat, homeb: nat, unpin: bool)
    requires CacheOk(bufs, pins, disk) && Holding(bufs, pins, blocks, busy) && Distinct(blocks)
    requires |bufs'| == NBUF && l < NBUF && h < NBUF && l != h
    requires logb !in blocks && bufs[l].refcnt == 0 && h !in busy
    requires homeb in blocks || blocks == []
    requires unpin ==> blocks != [] && homeb == blocks[0]
    requires bufs[h].refcnt > 0 || homeb in blocks ==> Holds(bufs, h, homeb)
    requires forall i :: 0 <= i < NBUF && i != l && i != h ==> bufs'[i] == bufs[i]
    requires unpin ==> pins[h] > 0
    requires pins' == if unpin then pins[h := pins[h] - 1] else pins
    requires Holds(bufs', l, logb) && !bufs'[l].locked && bufs'[l].refcnt == 0
    requires Holds(bufs', h, homeb) && !bufs'[h].locked && bufs'[h].refcnt == pins'[h]
    ensures Holding(bufs', pins', Left(blocks, unpin), busy) && SameOn(bufs, bufs', busy)
  {
    var rest := Left(blocks, unpin);
    if unpin { assert blocks == [homeb] + rest; }
    forall i | 0 <= i < NBUF ensures pins'[i] == if HoldsAny(bufs'[i], rest) then 1 else 0 {
      assert i != h && HoldsAny(bufs[i], blocks) ==> Holds(bufs, i, bufs[i].blockno) && Holds(bufs, h, homeb);
    }
    forall b | b in rest ensures Cached(bufs', b) {
      var i := BufOf(bufs, b);
      assert i != l && Holds(bufs', i, b);
    }
  }
}
