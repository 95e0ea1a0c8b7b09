/**
 The redo log of `kernel/log.c` as a sequence of single block writes. `CommitDisk(.., k)` is the
 disk after the first `k` writes of `commit`, `RecoverDisk(.., k)` after the first `k` writes of
 `recover_from_log`; `Recovered` says, without steps, what a finished recovery leaves.
 */
module LogDisk {
  import opened Counting
  import opened BufferCache

  const MAXOPBLOCKS := 10
  const LOGSIZE := MAXOPBLOCKS * 3

  /** Where the log lies: header block `start`, then `size - 1` blocks for copies. */
  datatype Geometry = Geometry(start: nat, size: nat)

  predicate InLog(g: Geometry, b: nat) {
    g.start <= b < g.start + g.size
  }

  /** The block numbers in a header block: word 0 counts them, the rest follow. */
  function GetHead(b: Block): (blocks: seq<nat>)
    requires b[0] <= LOGSIZE
  {
    b[1..1 + b[0]]
  }

  /** `write_head` overwrites the count and as many numbers, and leaves the other words alone. */
  function PutHead(b: Block, blocks: seq<nat>): (r: Block)
    requires |blocks| <= LOGSIZE
    ensures r[0] == |blocks| && GetHead(r) == blocks
    ensures forall i :: |blocks| < i < BWORDS ==> r[i] == b[i]
  {
    [|blocks|] + blocks + b[1 + |blocks|..]
  }

  /** Number `i` of the header is its word `i + 1`. */
  lemma HeadPlace(b: Block, blocks: seq<nat>, i: nat)
    requires |blocks| <= 30 && i < |blocks|
    ensures PutHead(b, blocks)[0] == |blocks| && PutHead(b, blocks)[i + 1] == blocks[i]
  {
  }

  /** `blocks` can be logged: they fit, none is logged twice, and none lies in the log itself. */
  ghost predicate LogOk(d: Disk, g: Geometry, blocks: seq<nat>) {
    && 0 < g.size
    && g.start + g.size <= |d|
    && |blocks| <= LOGSIZE
    && |blocks| < g.size
    && Distinct(blocks)
    && forall i :: 0 <= i < |blocks| ==> blocks[i] < |d| && !InLog(g, blocks[i])
  }

  /** The writes that `commit` makes for `blocks` have an address and a source, in the log or not. */
  ghost predicate Addressable(d: Disk, g: Geometry, blocks: seq<nat>) {
    && |blocks| <= LOGSIZE && g.start + |blocks| < |d|
    && forall i :: 0 <= i < |blocks| ==> blocks[i] < |d|
  }

  ghost predicate DiskOk(d: Disk, g: Geometry) {
    && 0 < g.size
    && g.start + g.size <= |d|
    && d[g.start][0] <= LOGSIZE
    && LogOk(d, g, GetHead(d[g.start]))
  }

  ghost function Head(d: Disk, g: Geometry): seq<nat>
    requires DiskOk(d, g)
  {
    GetHead(d[g.start])
  }

  ghost function IndexOf(s: seq<nat>, x: nat): (i: nat)
    requires x in s
    ensures i < |s| && s[i] == x
  {
    var i: nat :| i < |s| && s[i] == x;
    i
  }

  /** What a finished recovery leaves: logged blocks replaced by their copies, the log emptied. */
  ghost function RecoveredBlock(d: Disk, g: Geometry, b: nat): Block
    requires DiskOk(d, g) && b < |d|
  {
    if b == g.start then PutHead(d[b], [])
    else if b in Head(d, g) then d[g.start + 1 + IndexOf(Head(d, g), b)]
    else d[b]
  }

  ghost function Recovered(d: Disk, g: Geometry): (r: Disk)
    requires DiskOk(d, g)
    ensures |r| == |d|
    ensures forall b: nat :: b < |d| ==> r[b] == RecoveredBlock(d, g, b)
  {
    seq(|d|, b requires 0 <= b < |d| => RecoveredBlock(d, g, b))
  }

  /** The disks agree outside the log. */
  ghost predicate SameHome(d: Disk, e: Disk, g: Geometry) {
    && |d| == |e|
    && forall b: nat :: b < |d| && !InLog(g, b) ==> d[b] == e[b]
  }

  /** `d` with the blocks in `blocks` replaced by their contents in `mem`. */
  ghost function Updated(d: Disk, blocks: seq<nat>, mem: Disk): (r: Disk)
    requires |mem| == |d|
    ensures |r| == |d|
    ensures forall b: nat :: b < |d| ==> r[b] == if b in blocks then mem[b] else d[b]
  {
    seq(|d|, b requires 0 <= b < |d| => if b in blocks then mem[b] else d[b])
  }

  // ---- commit ----

  /** The block that write `k` of `commit` goes to. */
  ghost function CommitAddr(g: Geometry, blocks: seq<nat>, k: nat): nat
    requires 0 < k <= 2 * |blocks| + 2
  {
    if k <= |blocks| then g.start + k                                 // write_log
    else if k == |blocks| + 1 then g.start                            // write_head
    else if k <= 2 * |blocks| + 1 then blocks[k - |blocks| - 2]       // install_trans
    else g.start                                                      // write_head
  }

  /** What write `k` of `commit` puts there when the disk is `e`. */
  ghost function CommitValue(e: Disk, g: Geometry, blocks: seq<nat>, mem: Disk, k: nat): Block
    requires Addressable(e, g, blocks) && |mem| == |e| && 0 < k <= 2 * |blocks| + 2
  {
    if k <= |blocks| then mem[blocks[k - 1]]
    else if k == |blocks| + 1 then PutHead(e[g.start], blocks)
    else if k <= 2 * |blocks| + 1 then e[g.start + k - |blocks| - 1]
    else PutHead(e[g.start], [])
  }

  /** The disk after the first `k` block writes of `commit`, for the cached contents `mem`. */
  ghost function CommitDisk(d: Disk, g: Geometry, blocks: seq<nat>, mem: Disk, k: nat): (r: Disk)
    requires LogOk(d, g, blocks) && |mem| == |d| && k <= 2 * |blocks| + 2
    ensures |r| == |d|
  {
    if k == 0 then d else
    var e := CommitDisk(d, g, blocks, mem, k - 1);
    e[CommitAddr(g, blocks, k) := CommitValue(e, g, blocks, mem, k)]
  }

  /** Block `b` of `CommitDisk(.., k)`, read off without running the writes. */
  ghost function CommitBlock(d: Disk, g: Geometry, blocks: seq<nat>, mem: Disk, k: nat, b: nat): Block
    requires LogOk(d, g, blocks) && |mem| == |d| && b < |d|
  {
    var n := |blocks|;
    if b == g.start then
      if k <= n then d[b] else if k <= 2 * n + 1 then PutHead(d[b], blocks) else PutHead(PutHead(d[b], blocks), [])
    else if g.start < b <= g.start + n then
      if b <= g.start + k then mem[blocks[b - g.start - 1]] else d[b]
    else if b in blocks && k >= n + 2 + IndexOf(blocks, b) then mem[b]
    else d[b]
  }

  lemma CommitStart(d: Disk, g: Geometry, blocks: seq<nat>, mem: Disk, b: nat)
    requires LogOk(d, g, blocks) && |mem| == |d| && b < |d|
    ensures CommitDisk(d, g, blocks, mem, 0) == d
    ensures CommitBlock(d, g, blocks, mem, 0, b) == d[b]
  {
  }

  lemma CommitMiss(d: Disk, g: Geometry, blocks: seq<nat>, mem: Disk, k: nat, b: nat)
    requires LogOk(d, g, blocks) && |mem| == |d| && 0 < k <= 2 * |blocks| + 2 && b < |d|
    requires b != CommitAddr(g, blocks, k)
    ensures CommitBlock(d, g, blocks, mem, k, b) == CommitBlock(d, g, blocks, mem, k - 1, b)
  {
  }

  lemma CommitUnfold(d: Disk, g: Geometry, blocks: seq<nat>, mem: Disk, k: nat)
    requires LogOk(d, g, blocks) && |mem| == |d| && 0 < k <= 2 * |blocks| + 2
    ensures var e := CommitDisk(d, g, blocks, mem, k - 1);
      CommitDisk(d, g, blocks, mem, k) == e[CommitAddr(g, blocks, k) := CommitValue(e, g, blocks, mem, k)]
  {
  }

  lemma CommitHit(d: Disk, g: Geometry, blocks: seq<nat>, mem: Disk, k: nat, e: Disk)
    requires LogOk(d, g, blocks) && |mem| == |d| == |e| && 0 < k <= 2 * |blocks| + 2
    requires e[g.start] == CommitBlock(d, g, blocks, mem, k - 1, g.start)
    requires |blocks| + 1 < k <= 2 * |blocks| + 1 ==>
      e[g.start + k - |blocks| - 1] == CommitBlock(d, g, blocks, mem, k - 1, g.start + k - |blocks| - 1)
    ensures CommitValue(e, g, blocks, mem, k) == CommitBlock(d, g, blocks, mem, k, CommitAddr(g, blocks, k))
  {
  }

  lemma {:induction false} CommitBlocks(d: Disk, g: Geometry, blocks: seq<nat>, mem: Disk, k: nat, b: nat)
    requires LogOk(d, g, blocks) && |mem| == |d| && k <= 2 * |blocks| + 2 && b < |d|
    ensures CommitDisk(d, g, blocks, mem, k)[b] == CommitBlock(d, g, blocks, mem, k, b)
  {
    hide CommitDisk, CommitBlock, CommitValue;
    if k == 0 {
      CommitStart(d, g, blocks, mem, b);
    } else {
      CommitUnfold(d, g, blocks, mem, k);
      if b != CommitAddr(g, blocks, k) {
        CommitBlocks(d, g, blocks, mem, k - 1, b);
        CommitMiss(d, g, blocks, mem, k, b);
      } else {
        CommitBlocks(d, g, blocks, mem, k - 1, g.start);
        if |blocks| + 1 < k <= 2 * |blocks| + 1 {
          CommitBlocks(d, g, blocks, mem, k - 1, g.start + k - |blocks| - 1);
        }
        CommitHit(d, g, blocks, mem, k, CommitDisk(d, g, blocks, mem, k - 1));
      }
    }
  }

  /** The log's copy of a block from the moment `write_log` has made it. */
  lemma CommitCopy(d: Disk, g: Geometry, blocks: seq<nat>, mem: Disk, k: nat, i: nat)
    requires LogOk(d, g, blocks) && |mem| == |d| && i < |blocks| && i < k <= 2 * |blocks| + 2
    ensures CommitDisk(d, g, blocks, mem, k)[g.start + 1 + i] == mem[blocks[i]]
  {
    hide CommitDisk;
    CommitBlocks(d, g, blocks, mem, k, g.start + 1 + i);
  }

  /** The header on disk at each crash point of a commit: empty, then the transaction, then empty. */
  lemma CommitHead(d: Disk, g: Geometry, blocks: seq<nat>, mem: Disk, k: nat)
    requires DiskOk(d, g) && Head(d, g) == [] && LogOk(d, g, blocks) && |mem| == |d|
    requires k <= 2 * |blocks| + 2
    ensures DiskOk(CommitDisk(d, g, blocks, mem, k), g)
    ensures Head(CommitDisk(d, g, blocks, mem, k), g) == if |blocks| < k <= 2 * |blocks| + 1 then blocks else []
  {
    CommitBlocks(d, g, blocks, mem, k, g.start);
  }

  lemma CommitRecovered(d: Disk, g: Geometry, blocks: seq<nat>, mem: Disk, k: nat, b: nat)
    requires DiskOk(d, g) && Head(d, g) == [] && LogOk(d, g, blocks) && |mem| == |d|
    requires k <= 2 * |blocks| + 2 && b < |d| && !InLog(g, b)
    ensures DiskOk(CommitDisk(d, g, blocks, mem, k), g)
    ensures RecoveredBlock(CommitDisk(d, g, blocks, mem, k), g, b) ==
      if k <= |blocks| || b !in blocks then d[b] else mem[b]
  {
    hide CommitDisk;
    CommitHead(d, g, blocks, mem, k);
    var c := CommitDisk(d, g, blocks, mem, k);
    if |blocks| < k <= 2 * |blocks| + 1 && b in blocks {
      var i := IndexOf(blocks, b);
      CommitBlocks(d, g, blocks, mem, k, g.start + 1 + i);
      assert RecoveredBlock(c, g, b) == c[g.start + 1 + i];
    } else {
      CommitBlocks(d, g, blocks, mem, k, b);
      assert RecoveredBlock(c, g, b) == c[b];
    }
  }

  /**
   Crash during commit: whatever the crash point `k`, recovery leaves every home block old when
   the header write (number n + 1) had not happened, and every logged block new when it had.
   */
  lemma CommitAtomic(d: Disk, g: Geometry, blocks: seq<nat>, mem: Disk, k: nat)
    requires DiskOk(d, g) && Head(d, g) == [] && LogOk(d, g, blocks) && |mem| == |d|
    requires k <= 2 * |blocks| + 2
    ensures DiskOk(CommitDisk(d, g, blocks, mem, k), g)
    ensures SameHome(Recovered(CommitDisk(d, g, blocks, mem, k), g), if k <= |blocks| then d else Updated(d, blocks, mem), g)
  {
    CommitHead(d, g, blocks, mem, k);
    var c := CommitDisk(d, g, blocks, mem, k);
    forall b: nat | b < |d| && !InLog(g, b)
      ensures RecoveredBlock(c, g, b) == if k <= |blocks| || b !in blocks then d[b] else mem[b]
    {
      CommitRecovered(d, g, blocks, mem, k, b);
    }
  }

  /** The disk when `commit` returns: the logged blocks are home and the log is empty again. */
  lemma CommitDone(d: Disk, g: Geometry, blocks: seq<nat>, mem: Disk)
    requires DiskOk(d, g) && Head(d, g) == [] && LogOk(d, g, blocks) && |mem| == |d|
    ensures var c := CommitDisk(d, g, blocks, mem, 2 * |blocks| + 2);
      DiskOk(c, g) && Head(c, g) == [] && SameHome(c, Updated(d, blocks, mem), g)
  {
    hide CommitDisk;
    CommitHead(d, g, blocks, mem, 2 * |blocks| + 2);
    forall b: nat | b < |d| && !InLog(g, b)
      ensures CommitDisk(d, g, blocks, mem, 2 * |blocks| + 2)[b] == if b in blocks then mem[b] else d[b]
    {
      CommitBlocks(d, g, blocks, mem, 2 * |blocks| + 2, b);
    }
  }

  /** The disks `commit` passes through, one per block write. */
  ghost function CommitTrace(d: Disk, g: Geometry, blocks: seq<nat>, mem: Disk, k: nat): (t: seq<Disk>)
    requires LogOk(d, g, blocks) && |mem| == |d| && k <= 2 * |blocks| + 2
    ensures |t| == k
  {
    if k == 0 then [] else CommitTrace(d, g, blocks, mem, k - 1) + [CommitDisk(d, g, blocks, mem, k)]
  }

  /** One more write, as `write_log`, the first and the last `write_head` make it. */
  lemma CommitStep(d: Disk, g: Geometry, blocks: seq<nat>, mem: Disk, e: Disk, k: nat)
    requires LogOk(d, g, blocks) && |mem| == |d| && k <= 2 * |blocks| + 1
    requires e == CommitDisk(d, g, blocks, mem, k)
    ensures k < |blocks| ==> CommitDisk(d, g, blocks, mem, k + 1) == e[g.start + k + 1 := mem[blocks[k]]]
    ensures k == |blocks| ==> CommitDisk(d, g, blocks, mem, k + 1) == e[g.start := PutHead(e[g.start], blocks)]
    ensures k == 2 * |blocks| + 1 ==> CommitDisk(d, g, blocks, mem, k + 1) == e[g.start := PutHead(e[g.start], [])]
    ensures CommitTrace(d, g, blocks, mem, k + 1) == CommitTrace(d, g, blocks, mem, k) + [CommitDisk(d, g, blocks, mem, k + 1)]
  {
  }

  lemma {:induction false} CommitTraceAt(d: Disk, g: Geometry, blocks: seq<nat>, mem: Disk, k: nat, i: nat)
    requires LogOk(d, g, blocks) && |mem| == |d| && i < k <= 2 * |blocks| + 2
    ensures CommitTrace(d, g, blocks, mem, k)[i] == CommitDisk(d, g, blocks, mem, i + 1)
  {
    if i < k - 1 { CommitTraceAt(d, g, blocks, mem, k - 1, i); }
  }

  /** Recovery from `e` leaves the home blocks of `t`. */
  ghost predicate RecoversTo(e: Disk, g: Geometry, t: Disk) {
    DiskOk(e, g) && SameHome(Recovered(e, g), t, g)
  }

  lemma RecoversSame(e: Disk, g: Geometry, t: Disk, t': Disk)
    requires RecoversTo(e, g, t) && SameHome(t', t, g)
    ensures RecoversTo(e, g, t')
  {
  }

  lemma CommitRecoversAt(d: Disk, g: Geometry, blocks: seq<nat>, mem: Disk, k: nat)
    requires DiskOk(d, g) && Head(d, g) == [] && LogOk(d, g, blocks) && |mem| == |d| && Updated(d, blocks, mem) == mem
    requires k <= 2 * |blocks| + 2
    ensures k <= |blocks| ==> RecoversTo(CommitDisk(d, g, blocks, mem, k), g, d)
    ensures k > |blocks| ==> RecoversTo(CommitDisk(d, g, blocks, mem, k), g, mem)
  {
    CommitAtomic(d, g, blocks, mem, k);
    hide *;
  }

  /** Every disk that a commit passes through recovers to the old blocks or to the new ones, as its place says. */
  lemma CommitRecovers(d: Disk, g: Geometry, blocks: seq<nat>, mem: Disk)
    requires DiskOk(d, g) && Head(d, g) == [] && LogOk(d, g, blocks) && |mem| == |d| && Updated(d, blocks, mem) == mem
    ensures var t := CommitTrace(d, g, blocks, mem, 2 * |blocks| + 2);
      forall i :: 0 <= i < |t| ==> RecoversTo(t[i], g, if i < |blocks| then d else mem)
  {
    hide DiskOk, LogOk, Head, Updated, RecoversTo, CommitTrace;
    var t := CommitTrace(d, g, blocks, mem, 2 * |blocks| + 2);
    forall i | 0 <= i < |t| ensures RecoversTo(t[i], g, if i < |blocks| then d else mem) {
      CommitTraceAt(d, g, blocks, mem, 2 * |blocks| + 2, i);
      CommitRecoversAt(d, g, blocks, mem, i + 1);
    }
  }

  /** The first `k` writes of `install_trans`: block by block from the log to its home. */
  ghost function Installed(d: Disk, g: Geometry, blocks: seq<nat>, k: nat): (r: Disk)
    requires LogOk(d, g, blocks) && k <= |blocks|
    ensures |r| == |d|
  {
    if k == 0 then d else
    var e := Installed(d, g, blocks, k - 1);
    e[blocks[k - 1] := e[g.start + k]]
  }

  ghost function InstallTrace(d: Disk, g: Geometry, blocks: seq<nat>, k: nat): (t: seq<Disk>)
    requires LogOk(d, g, blocks) && k <= |blocks|
    ensures |t| == k
  {
    if k == 0 then [] else InstallTrace(d, g, blocks, k - 1) + [Installed(d, g, blocks, k)]
  }

  lemma InstallStart(d: Disk, g: Geometry, blocks: seq<nat>)
    requires LogOk(d, g, blocks)
    ensures Installed(d, g, blocks, 0) == d && InstallTrace(d, g, blocks, 0) == []
  {
  }

  lemma InstallStep(d: Disk, g: Geometry, blocks: seq<nat>, k: nat)
    requires LogOk(d, g, blocks) && k < |blocks|
    ensures var e := Installed(d, g, blocks, k);
      && |e| == |d| && Installed(d, g, blocks, k + 1) == e[blocks[k] := e[g.start + k + 1]]
      && InstallTrace(d, g, blocks, k + 1) == InstallTrace(d, g, blocks, k) + [Installed(d, g, blocks, k + 1)]
  {
  }

  lemma {:induction false} InstallInCommit(d: Disk, g: Geometry, blocks: seq<nat>, mem: Disk, e: Disk, k: nat)
    requires LogOk(d, g, blocks) && |mem| == |d| && k <= |blocks|
    requires e == CommitDisk(d, g, blocks, mem, |blocks| + 1)
    ensures Installed(e, g, blocks, k) == CommitDisk(d, g, blocks, mem, |blocks| + 1 + k)
    ensures CommitTrace(d, g, blocks, mem, |blocks| + 1) + InstallTrace(e, g, blocks, k)
         == CommitTrace(d, g, blocks, mem, |blocks| + 1 + k)
  {
    if k > 0 { InstallInCommit(d, g, blocks, mem, e, k - 1); }
  }

  // ---- recovery ----

  /** The disk after the first `k` block writes of `recover_from_log`. */
  ghost function RecoverDisk(d: Disk, g: Geometry, k: nat): (r: Disk)
    requires DiskOk(d, g) && k <= |Head(d, g)| + 1
    ensures |r| == |d|
  {
    if k == 0 then d else
    var e := RecoverDisk(d, g, k - 1);
    if k <= |Head(d, g)| then e[Head(d, g)[k - 1] := e[g.start + k]]   // install_trans
    else e[g.start := PutHead(e[g.start], [])]                         // write_head
  }

  /** Block `b` of `RecoverDisk(.., k)`, read off without running the writes. */
  ghost function RecoverBlock(d: Disk, g: Geometry, k: nat, b: nat): Block
    requires DiskOk(d, g) && b < |d|
  {
    var h := Head(d, g);
    if b == g.start then (if k == |h| + 1 then PutHead(d[b], []) else d[b])
    else if b in h && IndexOf(h, b) < k then d[g.start + 1 + IndexOf(h, b)]
    else d[b]
  }

  lemma RecoverUnfold(d: Disk, g: Geometry, k: nat)
    requires DiskOk(d, g) && 0 < k <= |Head(d, g)| + 1
    ensures var e := RecoverDisk(d, g, k - 1);
      RecoverDisk(d, g, k) ==
        if k <= |Head(d, g)| then e[Head(d, g)[k - 1] := e[g.start + k]] else e[g.start := PutHead(e[g.start], [])]
  {
  }

  lemma {:induction false} RecoverBlocks(d: Disk, g: Geometry, k: nat, b: nat)
    requires DiskOk(d, g) && k <= |Head(d, g)| + 1 && b < |d|
    ensures RecoverDisk(d, g, k)[b] == RecoverBlock(d, g, k, b)
  {
    if k > 0 {
      RecoverUnfold(d, g, k);
      hide RecoverDisk;
      RecoverBlocks(d, g, k - 1, b);
      if k <= |Head(d, g)| { RecoverBlocks(d, g, k - 1, g.start + k); }
    }
  }

  lemma RecoverHead(d: Disk, g: Geometry, k: nat)
    requires DiskOk(d, g) && k <= |Head(d, g)| + 1
    ensures DiskOk(RecoverDisk(d, g, k), g)
    ensures Head(RecoverDisk(d, g, k), g) == if k <= |Head(d, g)| then Head(d, g) else []
  {
    RecoverBlocks(d, g, k, g.start);
    hide RecoverDisk;
  }

  lemma RecoverStableAt(d: Disk, g: Geometry, k: nat, b: nat)
    requires DiskOk(d, g) && k <= |Head(d, g)| + 1 && b < |d|
    ensures DiskOk(RecoverDisk(d, g, k), g)
    ensures RecoveredBlock(RecoverDisk(d, g, k), g, b) == RecoveredBlock(d, g, b)
    ensures k == |Head(d, g)| + 1 ==> RecoverDisk(d, g, k)[b] == RecoveredBlock(d, g, b)
  {
    hide RecoverDisk;
    RecoverHead(d, g, k);
    RecoverBlocks(d, g, k, b);
    if b in Head(d, g) { RecoverBlocks(d, g, k, g.start + 1 + IndexOf(Head(d, g), b)); }
  }

  ghost function RecoverTrace(d: Disk, g: Geometry, k: nat): (t: seq<Disk>)
    requires DiskOk(d, g) && k <= |Head(d, g)| + 1
    ensures |t| == k
  {
    if k == 0 then [] else RecoverTrace(d, g, k - 1) + [RecoverDisk(d, g, k)]
  }

  lemma RecoverLast(d: Disk, g: Geometry)
    requires DiskOk(d, g)
    ensures var n := |Head(d, g)|;
      var e := RecoverDisk(d, g, n);
      && RecoverDisk(d, g, n + 1) == e[g.start := PutHead(e[g.start], [])]
      && RecoverTrace(d, g, n + 1) == RecoverTrace(d, g, n) + [RecoverDisk(d, g, n + 1)]
  {
    RecoverUnfold(d, g, |Head(d, g)| + 1);
  }

  lemma {:induction false} RecoverTraceAt(d: Disk, g: Geometry, k: nat, i: nat)
    requires DiskOk(d, g) && i < k <= |Head(d, g)| + 1
    ensures RecoverTrace(d, g, k)[i] == RecoverDisk(d, g, i + 1)
  {
    if i < k - 1 { RecoverTraceAt(d, g, k - 1, i); }
  }

  lemma {:induction false} InstallInRecovery(d: Disk, g: Geometry, k: nat)
    requires DiskOk(d, g) && k <= |Head(d, g)|
    ensures Installed(d, g, Head(d, g), k) == RecoverDisk(d, g, k)
    ensures InstallTrace(d, g, Head(d, g), k) == RecoverTrace(d, g, k)
  {
    if k > 0 { InstallInRecovery(d, g, k - 1); }
  }

  /** Recovery may stop after any number of its writes: what it is heading for does not change. */
  lemma RecoverStable(d: Disk, g: Geometry, k: nat)
    requires DiskOk(d, g) && k <= |Head(d, g)| + 1
    ensures DiskOk(RecoverDisk(d, g, k), g)
    ensures Recovered(RecoverDisk(d, g, k), g) == Recovered(d, g)
    ensures k == |Head(d, g)| + 1 ==> RecoverDisk(d, g, k) == Recovered(d, g)
  {
    hide RecoverDisk, RecoveredBlock, DiskOk;
    RecoverHead(d, g, k);
    var c := RecoverDisk(d, g, k);
    forall b: nat | b < |d|
      ensures RecoveredBlock(c, g, b) == RecoveredBlock(d, g, b)
      ensures k == |Head(d, g)| + 1 ==> c[b] == RecoveredBlock(d, g, b)
    {
      RecoverStableAt(d, g, k, b);
    }
    assert forall b: nat :: b < |d| ==> Recovered(c, g)[b] == RecoveredBlock(c, g, b);
  }

  /** Every disk that a recovery passes through recovers to the same. */
  lemma RecoveryKeeps(d: Disk, g: Geometry)
    requires DiskOk(d, g)
    ensures var t := RecoverTrace(d, g, |Head(d, g)| + 1);
      forall i :: 0 <= i < |t| ==> DiskOk(t[i], g) && Recovered(t[i], g) == Recovered(d, g)
  {
    var n := |Head(d, g)| + 1;
    forall i | 0 <= i < n ensures DiskOk(RecoverTrace(d, g, n)[i], g) && Recovered(RecoverTrace(d, g, n)[i], g) == Recovered(d, g) {
      RecoverTraceAt(d, g, n, i);
      RecoverStable(d, g, i + 1);
      hide RecoverDisk, RecoverTrace, Recovered, DiskOk;
    }
  }

  /** Recovery started over and over: attempt `i` crashes after `ks[i]` of its writes. */
  ghost function AfterCrashes(d: Disk, g: Geometry, ks: seq<nat>): (r: Disk)
    requires DiskOk(d, g)
    ensures |r| == |d|
    decreases |ks|
  {
    if ks == [] then d else
    var k := if ks[0] <= |Head(d, g)| + 1 then ks[0] else |Head(d, g)| + 1;
    RecoverStable(d, g, k);
    AfterCrashes(RecoverDisk(d, g, k), g, ks[1..])
  }

  lemma {:induction false} CrashesHarmless(d: Disk, g: Geometry, ks: seq<nat>)
    requires DiskOk(d, g)
    ensures DiskOk(AfterCrashes(d, g, ks), g)
    ensures Recovered(AfterCrashes(d, g, ks), g) == Recovered(d, g)
    decreases |ks|
  {
    if ks != [] {
      var k := if ks[0] <= |Head(d, g)| + 1 then ks[0] else |Head(d, g)| + 1;
      RecoverStable(d, g, k);
      CrashesHarmless(RecoverDisk(d, g, k), g, ks[1..]);
    }
  }

  /**
   Crash atomicity. Crash after `k` writes of a commit, then any number of times during recovery;
   the recovery that finishes leaves the home blocks all old or all new, and all new exactly when
   the header write had reached the disk.
   */
  lemma CrashAtomicity(d: Disk, g: Geometry, blocks: seq<nat>, mem: Disk, k: nat, ks: seq<nat>)
    requires DiskOk(d, g) && Head(d, g) == [] && LogOk(d, g, blocks) && |mem| == |d|
    requires k <= 2 * |blocks| + 2
    ensures DiskOk(CommitDisk(d, g, blocks, mem, k), g)
    ensures var c := AfterCrashes(CommitDisk(d, g, blocks, mem, k), g, ks);
      && DiskOk(c, g)
      && var r := RecoverDisk(c, g, |Head(c, g)| + 1);
      && (k <= |blocks| ==> SameHome(r, d, g))
      && (k > |blocks| ==> SameHome(r, Updated(d, blocks, mem), g))
      && (!SameHome(d, Updated(d, blocks, mem), g) ==>
            (SameHome(r, Updated(d, blocks, mem), g) <==> k > |blocks|))
  {
    CommitAtomic(d, g, blocks, mem, k);
    var e := CommitDisk(d, g, blocks, mem, k);
    CrashesHarmless(e, g, ks);
    var c := AfterCrashes(e, g, ks);
    RecoverStable(c, g, |Head(c, g)| + 1);
  }
}
