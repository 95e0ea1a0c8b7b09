/**
 The free list of umalloc.c: a ring through the headers of the free blocks, in address order from the
 static `base` on. Addresses count header-sized units. Beside the ring, `pieces` holds every block,
 free or handed out, with its size, and `unit` tells of each unit which block it is in.
 */
module Umalloc {
  import opened Counting
  import opened Options

  type Map = map<nat, nat>

  // ---- blocks that tile the heap ----

  /** Unit `u` lies in block `a`. */
  predicate In(pieces: Map, a: nat, u: nat) {
    a in pieces && a <= u < a + pieces[a]
  }

  /** Every unit is in exactly one block. */
  ghost predicate Tiled(pieces: Map, unit: Map) {
    && (forall a :: a in pieces ==> pieces[a] > 0)
    && (forall u :: u in unit ==> In(pieces, unit[u], u))
    && (forall a, u :: In(pieces, a, u) ==> u in unit && unit[u] == a)
  }

  /** The `n` units from `lo` on given to block `a`. */
  ghost function Relabel(unit: Map, lo: nat, n: nat, a: nat): Map {
    map u | u in unit :: if lo <= u < lo + n then a else unit[u]
  }

  ghost function Fresh(unit: Map, a: nat, n: nat): Map {
    map u | u in unit.Keys + (Below(a + n) - Below(a)) :: if u in unit then unit[u] else a
  }

  lemma TiledApart(pieces: Map, unit: Map, a: nat, b: nat)
    requires Tiled(pieces, unit) && a in pieces && b in pieces && a < b
    ensures a + pieces[a] <= b
  {
    assert In(pieces, b, b) && !In(pieces, a, b);
  }

  lemma TiledSplit(pieces: Map, unit: Map, a: nat, n: nat)
    requires Tiled(pieces, unit) && a in pieces && 0 < n < pieces[a]
    ensures var b := a + pieces[a] - n;
      b !in pieces && Tiled(pieces[a := pieces[a] - n][b := n], Relabel(unit, b, n, b))
  {
    var b := a + pieces[a] - n;
    assert In(pieces, a, b) && (b in pieces ==> In(pieces, b, b));
    var p, v := pieces[a := pieces[a] - n][b := n], Relabel(unit, b, n, b);
    forall c: nat, u: nat | In(p, c, u) ensures u in v && v[u] == c {
      assert In(pieces, if c == b then a else c, u) && (b <= u < b + n ==> In(pieces, a, u));
    }
    forall u | u in v ensures In(p, v[u], u) { assert In(pieces, unit[u], u); }
  }

  lemma TiledJoin(pieces: Map, unit: Map, a: nat, b: nat)
    requires Tiled(pieces, unit) && a in pieces && b in pieces && a + pieces[a] == b
    ensures Tiled((pieces - {b})[a := pieces[a] + pieces[b]], Relabel(unit, b, pieces[b], a))
  {
    var p, v := (pieces - {b})[a := pieces[a] + pieces[b]], Relabel(unit, b, pieces[b], a);
    forall c: nat, u: nat | In(p, c, u) ensures u in v && v[u] == c {
      assert In(pieces, if c == a && u >= b then b else c, u) && (b <= u < b + pieces[b] ==> In(pieces, b, u));
    }
    forall u | u in v ensures In(p, v[u], u) { assert In(pieces, unit[u], u); }
  }

  lemma TiledAdd(pieces: Map, unit: Map, a: nat, n: nat)
    requires Tiled(pieces, unit) && n > 0 && forall u: nat :: a <= u < a + n ==> u !in unit
    ensures a !in pieces && Tiled(pieces[a := n], Fresh(unit, a, n))
  {
    FreshIs(unit, a, n);
    hide Fresh;
    var p, v := pieces[a := n], Fresh(unit, a, n);
    assert a in pieces ==> In(pieces, a, a);
    forall c: nat, u: nat | In(p, c, u) ensures u in v && v[u] == c { assert c != a ==> In(pieces, c, u); }
    forall u | u in v ensures In(p, v[u], u) { assert u in unit ==> In(pieces, unit[u], u); }
  }

  lemma FreshIs(unit: Map, a: nat, n: nat)
    ensures forall u: nat :: u in Fresh(unit, a, n) <==> u in unit || a <= u < a + n
    ensures forall u :: u in Fresh(unit, a, n) ==> Fresh(unit, a, n)[u] == if u in unit then unit[u] else a
  {
    forall u: nat ensures u in Fresh(unit, a, n) <==> u in unit || a <= u < a + n {
      assert u in Below(a + n) - Below(a) <==> a <= u < a + n;
    }
    hide Below;
  }

  // ---- the ring ----

  function After(n: nat, i: nat): nat {
    if i + 1 == n then 0 else i + 1
  }

  /** Addresses in order. */
  ghost predicate Rising(blocks: seq<nat>) {
    forall i, j :: 0 <= i < j < |blocks| ==> blocks[i] < blocks[j]
  }

  ghost predicate RingOk(ptr: Map, blocks: seq<nat>) {
    && 0 < |blocks|
    && (forall i {:trigger blocks[i] in ptr} :: 0 <= i < |blocks| ==> blocks[i] in ptr)
    && (forall i {:trigger ptr[blocks[i]]} :: 0 <= i < |blocks| ==> ptr[blocks[i]] == blocks[After(|blocks|, i)])
  }

  /** `c` is `blocks` with `b` after block `t`. */
  ghost predicate Inserted(blocks: seq<nat>, t: nat, b: nat, c: seq<nat>) {
    && t < |blocks| && |c| == |blocks| + 1 && c[t + 1] == b
    && (forall i {:trigger c[i]} :: 0 <= i <= t ==> c[i] == blocks[i])
    && (forall i {:trigger c[i]} :: t + 1 < i < |c| ==> c[i] == blocks[i - 1])
  }

  /** `c` is `blocks` without the block after block `t`. */
  ghost predicate Removed(blocks: seq<nat>, t: nat, c: seq<nat>) {
    && t + 1 < |blocks| && |c| == |blocks| - 1
    && (forall i {:trigger c[i]} :: 0 <= i <= t ==> c[i] == blocks[i])
    && (forall i {:trigger c[i]} :: t < i < |c| ==> c[i] == blocks[i + 1])
  }

  lemma RingAt(ptr: Map, blocks: seq<nat>, i: nat)
    requires RingOk(ptr, blocks) && i < |blocks|
    ensures blocks[i] in ptr && ptr[blocks[i]] == blocks[After(|blocks|, i)]
  {
  }

  /** `b` linked in after block `t`. */
  lemma RingInsert(ptr: Map, blocks: seq<nat>, t: nat, b: nat, c: seq<nat>)
    requires RingOk(ptr, blocks) && Rising(blocks) && b !in blocks && Inserted(blocks, t, b, c)
    ensures blocks[t] in ptr && RingOk(ptr[b := ptr[blocks[t]]][blocks[t] := b], c)
  {
    hide RingOk;
    RingAt(ptr, blocks, t);
    var q := ptr[b := ptr[blocks[t]]][blocks[t] := b];
    assert blocks[t] in blocks;
    forall i | 0 <= i < |c| ensures c[i] in q && q[c[i]] == c[After(|c|, i)] {
      var k := if i <= t then i else i - 1;
      RingAt(ptr, blocks, k);
      assert blocks[k] in blocks && (k != t ==> blocks[k] != blocks[t]);
    }
    RingFrom(q, c);
  }

  lemma RingFrom(ptr: Map, blocks: seq<nat>)
    requires 0 < |blocks| && forall i :: 0 <= i < |blocks| ==> blocks[i] in ptr && ptr[blocks[i]] == blocks[After(|blocks|, i)]
    ensures RingOk(ptr, blocks)
  {
  }

  /** The block after block `t` unlinked; it is not the first one. */
  lemma RingRemove(ptr: Map, blocks: seq<nat>, t: nat, c: seq<nat>)
    requires RingOk(ptr, blocks) && Rising(blocks) && Removed(blocks, t, c)
    ensures blocks[t + 1] in ptr && RingOk(ptr[blocks[t] := ptr[blocks[t + 1]]], c)
  {
    hide RingOk;
    RingAt(ptr, blocks, t);
    RingAt(ptr, blocks, t + 1);
    var q := ptr[blocks[t] := ptr[blocks[t + 1]]];
    forall i | 0 <= i < |c| ensures c[i] in q && q[c[i]] == c[After(|c|, i)] {
      var k := if i <= t then i else i + 1;
      RingAt(ptr, blocks, k);
      assert k != t ==> blocks[k] != blocks[t];
    }
    RingFrom(q, c);
  }

  // ---- the heap ----

  datatype Heap = Heap(base: nat, ptr: Map, size: Map, blocks: seq<nat>, pieces: Map, unit: Map)

  /** Blocks in address order, no two of them adjacent. */
  ghost predicate Gaps(blocks: seq<nat>, size: Map) {
    && (forall i {:trigger blocks[i]} :: 0 <= i < |blocks| ==> blocks[i] in size)
    && (forall i, j :: 0 <= i < j < |blocks| ==> blocks[i] + size[blocks[i]] < blocks[j])
  }

  /** The headers hold the sizes of the blocks, and all but the first free block are blocks above `base`. */
  ghost predicate Sizes(h: Heap) {
    && (forall a :: a in h.pieces ==> h.base < a && a in h.size && h.size[a] == h.pieces[a])
    && 0 < |h.blocks| && h.blocks[0] == h.base && h.base in h.size && h.size[h.base] == 0
    && (forall i {:trigger h.blocks[i]} :: 0 < i < |h.blocks| ==> h.blocks[i] in h.pieces)
  }

  ghost predicate HeapOk(h: Heap) {
    RingOk(h.ptr, h.blocks) && Gaps(h.blocks, h.size) && Tiled(h.pieces, h.unit) && Sizes(h)
  }

  lemma GapsRising(blocks: seq<nat>, size: Map)
    requires Gaps(blocks, size)
    ensures Rising(blocks)
  {
  }

  /** `b` lies between block `t` and the next. */
  ghost predicate Between(h: Heap, b: nat, t: nat) {
    b in h.pieces && t < |h.blocks| && h.blocks[t] < b && (t + 1 < |h.blocks| ==> b < h.blocks[t + 1])
  }

  lemma BetweenApart(h: Heap, b: nat, t: nat)
    requires HeapOk(h) && Between(h, b, t)
    ensures b !in h.blocks && b in h.size && h.blocks[t] in h.size && h.blocks[t] + h.size[h.blocks[t]] <= b
    ensures t + 1 < |h.blocks| ==> b + h.size[b] <= h.blocks[t + 1] && h.blocks[t + 1] in h.size
    ensures h.blocks[t] + h.size[h.blocks[t]] == b ==> 0 < t
  {
    GapsRising(h.blocks, h.size);
    hide RingOk;
    if t > 0 { TiledApart(h.pieces, h.unit, h.blocks[t], b); }
    if t + 1 < |h.blocks| { TiledApart(h.pieces, h.unit, b, h.blocks[t + 1]); }
    hide Tiled;
    forall i | 0 <= i < |h.blocks| ensures h.blocks[i] != b { }
  }

  // ---- what free does, in two stages ----

  /** The block after `b`, which `b` reaches up to, becomes part of it. */
  ghost function JoinUp(h: Heap, b: nat, t: nat): Heap
    requires t + 1 < |h.blocks| && b in h.size && b in h.pieces
    requires h.blocks[t + 1] in h.ptr && h.blocks[t + 1] in h.size && h.blocks[t + 1] in h.pieces
  {
    var nx := h.blocks[t + 1];
    h.(ptr := h.ptr[b := h.ptr[nx]][h.blocks[t] := h.ptr[nx]],
       size := h.size[b := h.size[b] + h.size[nx]],
       blocks := h.blocks[..t + 1] + h.blocks[t + 2..],
       pieces := (h.pieces - {nx})[b := h.pieces[b] + h.pieces[nx]],
       unit := Relabel(h.unit, nx, h.pieces[nx], b))
  }

  lemma RingOther(ptr: Map, blocks: seq<nat>, b: nat, x: nat)
    requires RingOk(ptr, blocks) && b !in blocks
    ensures RingOk(ptr[b := x], blocks)
  {
    forall i | 0 <= i < |blocks| ensures blocks[i] in ptr[b := x] && ptr[b := x][blocks[i]] == blocks[After(|blocks|, i)] {
      RingAt(ptr, blocks, i);
      assert blocks[i] in blocks;
    }
    hide RingOk;
    RingFrom(ptr[b := x], blocks);
  }

  lemma JoinUpReady(h: Heap, b: nat, t: nat)
    requires HeapOk(h) && Between(h, b, t) && t + 1 < |h.blocks|
    ensures b in h.size && h.blocks[t + 1] in h.ptr && h.blocks[t + 1] in h.size && h.blocks[t + 1] in h.pieces
  {
    RingAt(h.ptr, h.blocks, t + 1);
    hide RingOk, Tiled;
  }

  lemma JoinUpRing(h: Heap, b: nat, t: nat)
    requires HeapOk(h) && Between(h, b, t) && t + 1 < |h.blocks| && h.blocks[t + 1] in h.ptr
    ensures RingOk(h.ptr[b := h.ptr[h.blocks[t + 1]]][h.blocks[t] := h.ptr[h.blocks[t + 1]]], h.blocks[..t + 1] + h.blocks[t + 2..])
  {
    hide RingOk, Tiled;
    BetweenApart(h, b, t);
    GapsRising(h.blocks, h.size);
    var c := h.blocks[..t + 1] + h.blocks[t + 2..];
    RingRemove(h.ptr, h.blocks, t, c);
    assert b !in c;
    RingOther(h.ptr[h.blocks[t] := h.ptr[h.blocks[t + 1]]], c, b, h.ptr[h.blocks[t + 1]]);
    assert h.ptr[b := h.ptr[h.blocks[t + 1]]][h.blocks[t] := h.ptr[h.blocks[t + 1]]] 
        == h.ptr[h.blocks[t] := h.ptr[h.blocks[t + 1]]][b := h.ptr[h.blocks[t + 1]]];
  }

  /** The blocks that are handed out, with their sizes. */
  ghost function Allocated(h: Heap): Map {
    map a | a in h.pieces && a !in h.blocks :: h.pieces[a]
  }

  lemma JoinUpOk(h: Heap, b: nat, t: nat)
    requires HeapOk(h) && Between(h, b, t) && t + 1 < |h.blocks| && b in h.size && b + h.size[b] == h.blocks[t + 1]
    requires h.blocks[t + 1] in h.ptr && h.blocks[t + 1] in h.size && h.blocks[t + 1] in h.pieces
    ensures var k := JoinUp(h, b, t);
      && HeapOk(k) && Between(k, b, t) && (t + 1 < |k.blocks| ==> b + k.size[b] < k.blocks[t + 1])
      && Allocated(k) == Allocated(h)[b := h.pieces[b] + h.pieces[h.blocks[t + 1]]] && k.unit.Keys == h.unit.Keys
      && k.blocks[t] == h.blocks[t] && k.size[k.blocks[t]] == h.size[h.blocks[t]]
  {
    hide RingOk, Tiled, Gaps, Sizes, Removed;
    var k, nx := JoinUp(h, b, t), h.blocks[t + 1];
    JoinUpRing(h, b, t);
    BetweenApart(h, b, t);
    JoinUpTiled(h, b, t);
    GapsRising(h.blocks, h.size);
    JoinUpRemoves(h, b, t);
    RemovedGaps(h.blocks, h.size, t, k.blocks, b, k.size[b]);
    RemovedElements(h.blocks, t, k.blocks);
    JoinUpSizes(h, b, t);
    assert h.blocks[t] in h.blocks;
    assert Allocated(k) == Allocated(h)[b := h.pieces[b] + h.pieces[nx]];
  }

  lemma JoinUpTiled(h: Heap, b: nat, t: nat)
    requires Tiled(h.pieces, h.unit) && Sizes(h) && t + 1 < |h.blocks| && b in h.pieces && b in h.size && b + h.size[b] == h.blocks[t + 1]
    requires h.blocks[t + 1] in h.ptr && h.blocks[t + 1] in h.size && h.blocks[t + 1] in h.pieces
    ensures var k := JoinUp(h, b, t); Tiled(k.pieces, k.unit) && k.unit.Keys == h.unit.Keys
  {
    TiledJoin(h.pieces, h.unit, b, h.blocks[t + 1]);
  }

  lemma JoinUpRemoves(h: Heap, b: nat, t: nat)
    requires Gaps(h.blocks, h.size) && t + 1 < |h.blocks| && b in h.pieces && b in h.size && b + h.size[b] == h.blocks[t + 1]
    requires h.blocks[t + 1] in h.ptr && h.blocks[t + 1] in h.size && h.blocks[t + 1] in h.pieces
    ensures var k := JoinUp(h, b, t);
      Removed(h.blocks, t, k.blocks) && (t + 1 < |k.blocks| ==> b + k.size[b] < k.blocks[t + 1])
  {
  }

  lemma JoinUpSizes(h: Heap, b: nat, t: nat)
    requires Sizes(h) && b !in h.blocks && t + 1 < |h.blocks| && b in h.size && b in h.pieces && Rising(h.blocks)
    requires h.blocks[t + 1] in h.ptr && h.blocks[t + 1] in h.size && h.blocks[t + 1] in h.pieces
    ensures Sizes(JoinUp(h, b, t))
  {
    var k := JoinUp(h, b, t);
    assert k.blocks[0] == h.blocks[0] && h.blocks[0] in h.blocks;
    forall i | 0 < i < |k.blocks| ensures k.blocks[i] in k.pieces {
      assert k.blocks[i] == h.blocks[if i <= t then i else i + 1];
    }
  }

  lemma RemovedGaps(blocks: seq<nat>, size: Map, t: nat, c: seq<nat>, b: nat, x: nat)
    requires Gaps(blocks, size) && Removed(blocks, t, c) && b !in blocks
    ensures Gaps(c, size[b := x])
  {
    forall i | 0 <= i < |c| ensures c[i] in size && c[i] != b {
      assert c[i] == blocks[if i <= t then i else i + 1];
      assert c[i] in blocks;
    }
    forall i, j | 0 <= i < j < |c| ensures c[i] + size[c[i]] < c[j] {
      var x, y := if i <= t then i else i + 1, if j <= t then j else j + 1;
      assert c[i] == blocks[x] && c[j] == blocks[y];
    }
  }

  lemma RemovedElements(blocks: seq<nat>, t: nat, c: seq<nat>)
    requires Rising(blocks) && Removed(blocks, t, c)
    ensures forall a :: a in c <==> a in blocks && a != blocks[t + 1]
  {
    forall a | a in blocks && a != blocks[t + 1] ensures a in c {
      var i :| 0 <= i < |blocks| && blocks[i] == a;
      assert c[if i <= t then i else i - 1] == a;
    }
    forall a | a in c ensures a in blocks && a != blocks[t + 1] {
      var i :| 0 <= i < |c| && c[i] == a;
      assert a == blocks[if i <= t then i else i + 1];
    }
  }

  /** `b`, which touches neither neighbour, linked in after block `t`. */
  ghost function LinkIn(h: Heap, b: nat, t: nat): Heap
    requires t < |h.blocks| && h.blocks[t] in h.ptr
  {
    h.(ptr := h.ptr[b := h.ptr[h.blocks[t]]][h.blocks[t] := b], blocks := h.blocks[..t + 1] + [b] + h.blocks[t + 1..])
  }

  lemma LinkInOk(h: Heap, b: nat, t: nat)
    requires HeapOk(h) && Between(h, b, t) && h.blocks[t] in h.ptr && h.blocks[t] in h.size && b in h.size
    requires h.blocks[t] + h.size[h.blocks[t]] < b && (t + 1 < |h.blocks| ==> b + h.size[b] < h.blocks[t + 1])
    ensures var k := LinkIn(h, b, t); HeapOk(k) && Allocated(k) == Allocated(h) - {b} && k.blocks[t] == h.blocks[t] && k.blocks[t + 1] == b
  {
    hide RingOk, Tiled, Gaps, Sizes;
    var k := LinkIn(h, b, t);
    BetweenApart(h, b, t);
    GapsRising(h.blocks, h.size);
    RingInsert(h.ptr, h.blocks, t, b, k.blocks);
    InsertedGaps(h.blocks, h.size, t, b, k.blocks);
    LinkInSizes(h, b, t);
    assert Allocated(k) == Allocated(h) - {b};
  }

  lemma LinkInSizes(h: Heap, b: nat, t: nat)
    requires Sizes(h) && t < |h.blocks| && h.blocks[t] in h.ptr && b in h.pieces
    ensures Sizes(LinkIn(h, b, t))
  {
    var k := LinkIn(h, b, t);
    forall i | 0 < i < |k.blocks| ensures k.blocks[i] in k.pieces {
      assert k.blocks[i] == if i <= t then h.blocks[i] else if i == t + 1 then b else h.blocks[i - 1];
    }
  }

  lemma InsertedGaps(blocks: seq<nat>, size: Map, t: nat, b: nat, c: seq<nat>)
    requires Gaps(blocks, size) && Inserted(blocks, t, b, c) && b in size
    requires blocks[t] + size[blocks[t]] < b && (t + 1 < |blocks| ==> b + size[b] < blocks[t + 1])
    ensures Gaps(c, size)
  {
    GapsRising(blocks, size);
    forall i, j | 0 <= i < j < |c| ensures c[i] in size && c[i] + size[c[i]] < c[j] {
      var x, y := if i <= t then i else i - 1, if j <= t then j else j - 1;
      assert blocks[x] in size && blocks[y] in size;
    }
    forall i | 0 <= i < |c| ensures c[i] in size { }
  }

  /** `b` becomes part of block `t`, which reaches up to it. */
  ghost function JoinDown(h: Heap, b: nat, t: nat): Heap
    requires t < |h.blocks| && h.blocks[t] in h.size && b in h.size && h.blocks[t] in h.pieces && b in h.pieces
  {
    var p := h.blocks[t];
    h.(size := h.size[p := h.size[p] + h.size[b]],
       pieces := (h.pieces - {b})[p := h.pieces[p] + h.pieces[b]],
       unit := Relabel(h.unit, b, h.pieces[b], p))
  }

  lemma JoinDownOk(h: Heap, b: nat, t: nat)
    requires HeapOk(h) && Between(h, b, t) && h.blocks[t] in h.size && b in h.size
    requires h.blocks[t] + h.size[h.blocks[t]] == b && (t + 1 < |h.blocks| ==> b + h.size[b] < h.blocks[t + 1])
    ensures 0 < t && h.blocks[t] in h.pieces
    ensures var k := JoinDown(h, b, t); HeapOk(k) && Allocated(k) == Allocated(h) - {b} && k.unit.Keys == h.unit.Keys
  {
    hide RingOk, Tiled, Gaps, Sizes;
    BetweenApart(h, b, t);
    var p := h.blocks[t];
    JoinDownTiled(h, b, t);
    GrownGaps(h.blocks, h.size, t, h.size[p] + h.size[b]);
    JoinDownSizes(h, b, t);
    assert h.blocks[t] in h.blocks;
    assert Allocated(JoinDown(h, b, t)) == Allocated(h) - {b};
  }

  lemma JoinDownTiled(h: Heap, b: nat, t: nat)
    requires Tiled(h.pieces, h.unit) && Sizes(h) && 0 < t < |h.blocks| && b in h.pieces && b in h.size && h.blocks[t] in h.size
    requires h.blocks[t] + h.size[h.blocks[t]] == b
    ensures h.blocks[t] in h.pieces
    ensures var k := JoinDown(h, b, t); Tiled(k.pieces, k.unit) && k.unit.Keys == h.unit.Keys
  {
    TiledJoin(h.pieces, h.unit, h.blocks[t], b);
    hide Tiled;
  }

  lemma JoinDownSizes(h: Heap, b: nat, t: nat)
    requires Sizes(h) && 0 < t < |h.blocks| && b in h.pieces && b in h.size && h.blocks[t] in h.size && h.blocks[t] in h.pieces && b !in h.blocks
    ensures Sizes(JoinDown(h, b, t))
  {
    var k := JoinDown(h, b, t);
    forall i | 0 < i < |k.blocks| ensures k.blocks[i] in k.pieces { assert k.blocks[i] in h.blocks; }
  }

  lemma GrownGaps(blocks: seq<nat>, size: Map, t: nat, x: nat)
    requires Gaps(blocks, size) && t < |blocks| && (t + 1 < |blocks| ==> blocks[t] + x < blocks[t + 1])
    ensures Gaps(blocks, size[blocks[t] := x])
  {
    GapsRising(blocks, size);
    forall i, j | 0 <= i < j < |blocks| ensures blocks[i] + size[blocks[t] := x][blocks[i]] < blocks[j] {
      assert i == t ==> blocks[t] + x < blocks[t + 1] <= blocks[j];
    }
  }

  // ---- what malloc does with the block it has found ----

  /** Block `i` unlinked whole. */
  ghost function TakeWhole(h: Heap, i: nat): Heap
    requires 0 < i < |h.blocks| && h.blocks[i] in h.ptr
  {
    h.(ptr := h.ptr[h.blocks[i - 1] := h.ptr[h.blocks[i]]], blocks := h.blocks[..i] + h.blocks[i + 1..])
  }

  lemma TakeWholeOk(h: Heap, i: nat)
    requires HeapOk(h) && 0 < i < |h.blocks| && h.blocks[i] in h.ptr
    ensures h.blocks[i] in h.pieces
    ensures var k := TakeWhole(h, i); HeapOk(k) && Allocated(k) == Allocated(h)[h.blocks[i] := h.pieces[h.blocks[i]]]
  {
    hide RingOk, Tiled, Gaps;
    var k := TakeWhole(h, i);
    GapsRising(h.blocks, h.size);
    RingRemove(h.ptr, h.blocks, i - 1, k.blocks);
    RemovedOnly(h.blocks, h.size, i - 1, k.blocks);
    RemovedElements(h.blocks, i - 1, k.blocks);
    assert Sizes(k) by {
      forall j | 0 < j < |k.blocks| ensures k.blocks[j] in k.pieces { assert k.blocks[j] == h.blocks[if j < i then j else j + 1]; }
    }
    hide Sizes;
    assert Allocated(k) == Allocated(h)[h.blocks[i] := h.pieces[h.blocks[i]]];
  }

  lemma RemovedOnly(blocks: seq<nat>, size: Map, t: nat, c: seq<nat>)
    requires Gaps(blocks, size) && Removed(blocks, t, c)
    ensures Gaps(c, size)
  {
    forall i | 0 <= i < |c| ensures c[i] in size { assert c[i] == blocks[if i <= t then i else i + 1]; }
    forall i, j | 0 <= i < j < |c| ensures c[i] + size[c[i]] < c[j] {
      var x, y := if i <= t then i else i + 1, if j <= t then j else j + 1;
      assert c[i] == blocks[x] && c[j] == blocks[y];
    }
  }

  /** The last `n` units of block `i` cut off. */
  ghost function Carve(h: Heap, i: nat, n: nat): Heap
    requires i < |h.blocks| && h.blocks[i] in h.size && n < h.size[h.blocks[i]] && h.blocks[i] in h.pieces && n < h.pieces[h.blocks[i]]
  {
    var p := h.blocks[i];
    var b := p + h.size[p] - n;
    h.(size := h.size[p := h.size[p] - n][b := n],
       pieces := h.pieces[p := h.pieces[p] - n][b := n],
       unit := Relabel(h.unit, b, n, b))
  }

  lemma CarveOk(h: Heap, i: nat, n: nat)
    requires HeapOk(h) && 0 < i < |h.blocks| && h.blocks[i] in h.size && 0 < n < h.size[h.blocks[i]]
    ensures h.blocks[i] in h.pieces && n < h.pieces[h.blocks[i]]
    ensures var k := Carve(h, i, n);
      HeapOk(k) && Allocated(k) == Allocated(h)[h.blocks[i] + h.size[h.blocks[i]] - n := n] && k.unit.Keys == h.unit.Keys
  {
    hide RingOk, Tiled, Gaps;
    var p := h.blocks[i];
    var b := p + h.size[p] - n;
    assert p in h.pieces && h.pieces[p] == h.size[p];
    TiledSplit(h.pieces, h.unit, p, n);
    BlockNotPiece(h, b);
    CarveGaps(h, i, n);
    CarveSizes(h, i, n);
    hide Sizes;
    assert p in h.blocks;
    assert Allocated(Carve(h, i, n)) == Allocated(h)[b := n];
  }

  lemma BlockNotPiece(h: Heap, b: nat)
    requires Sizes(h) && b !in h.pieces && h.base < b
    ensures b !in h.blocks
  {
    forall j | 0 <= j < |h.blocks| ensures h.blocks[j] != b { assert j == 0 || h.blocks[j] in h.pieces; }
  }

  lemma CarveGaps(h: Heap, i: nat, n: nat)
    requires Gaps(h.blocks, h.size) && i < |h.blocks| && h.blocks[i] in h.size && n < h.size[h.blocks[i]]
    requires h.blocks[i] + h.size[h.blocks[i]] - n !in h.blocks
    ensures Gaps(h.blocks, h.size[h.blocks[i] := h.size[h.blocks[i]] - n][h.blocks[i] + h.size[h.blocks[i]] - n := n])
  {
    var p := h.blocks[i];
    GrownGaps(h.blocks, h.size, i, h.size[p] - n);
    hide Gaps;
    GapsOther(h.blocks, h.size[p := h.size[p] - n], p + h.size[p] - n, n);
  }

  lemma CarveSizes(h: Heap, i: nat, n: nat)
    requires Sizes(h) && 0 < i < |h.blocks| && h.blocks[i] in h.size && 0 < n < h.size[h.blocks[i]]
    requires h.blocks[i] in h.pieces && n < h.pieces[h.blocks[i]]
    ensures Sizes(Carve(h, i, n))
  {
    var k := Carve(h, i, n);
    forall j | 0 < j < |k.blocks| ensures k.blocks[j] in k.pieces { assert k.blocks[j] == h.blocks[j]; }
  }

  lemma GapsOther(blocks: seq<nat>, size: Map, b: nat, x: nat)
    requires Gaps(blocks, size) && b !in blocks
    ensures Gaps(blocks, size[b := x])
  {
    assert forall i :: 0 <= i < |blocks| ==> blocks[i] in blocks;
  }

  // ---- new memory ----

  /** `n` fresh units from `a` on, as one block that is handed out. */
  ghost function Grant(h: Heap, a: nat, n: nat): Heap {
    h.(size := h.size[a := n], pieces := h.pieces[a := n], unit := Fresh(h.unit, a, n))
  }

  lemma GrantOk(h: Heap, a: nat, n: nat)
    requires HeapOk(h) && h.base < a && n > 0 && forall u: nat :: a <= u < a + n ==> u !in h.unit
    ensures var k := Grant(h, a, n); HeapOk(k) && a in Allocated(k) && Allocated(k) == Allocated(h)[a := n]
    ensures forall u: nat :: u in Grant(h, a, n).unit <==> u in h.unit || a <= u < a + n
  {
    hide RingOk, Tiled, Gaps, Fresh;
    TiledAdd(h.pieces, h.unit, a, n);
    FreshIs(h.unit, a, n);
    BlockNotPiece(h, a);
    GapsOther(h.blocks, h.size, a, n);
    assert Sizes(Grant(h, a, n)) by {
      forall j | 0 < j < |h.blocks| ensures h.blocks[j] in h.pieces { }
    }
    hide Sizes;
  }

  // ---- free as a whole ----

  /** `free` of `b`, which lies after block `t`: first the block above, then the one below. */
  ghost function Stage1(h: Heap, b: nat, t: nat): Heap
    requires HeapOk(h) && Between(h, b, t)
  {
    RingAt(h.ptr, h.blocks, t);
    if t + 1 < |h.blocks| && b + h.size[b] == h.blocks[t + 1] then JoinUpReady(h, b, t); JoinUp(h, b, t)
    else h.(ptr := h.ptr[b := h.ptr[h.blocks[t]]])
  }

  lemma Stage1Ok(h: Heap, b: nat, t: nat)
    requires HeapOk(h) && Between(h, b, t)
    ensures var k := Stage1(h, b, t);
      && HeapOk(k) && Between(k, b, t) && b in k.size && b in h.size && k.size[b] >= h.size[b]
      && (t + 1 < |k.blocks| ==> b + k.size[b] < k.blocks[t + 1])
      && Allocated(k) - {b} == Allocated(h) - {b} && k.unit.Keys == h.unit.Keys
      && k.blocks[t] == h.blocks[t] && h.blocks[t] in h.size && k.blocks[t] in k.size && k.size[k.blocks[t]] == h.size[h.blocks[t]]
      && k.blocks[t] in k.ptr && b in k.ptr && k.ptr[k.blocks[t]] == k.ptr[b]
  {
    BetweenApart(h, b, t);
    RingAt(h.ptr, h.blocks, t);
    hide RingOk, Tiled, Gaps;
    if t + 1 < |h.blocks| && b + h.size[b] == h.blocks[t + 1] {
      JoinUpReady(h, b, t);
      JoinUpOk(h, b, t);
      BetweenApart(JoinUp(h, b, t), b, t);
    } else {
      RingOther(h.ptr, h.blocks, b, h.ptr[h.blocks[t]]);
    }
  }

  ghost function Stage2(k: Heap, b: nat, t: nat): Heap
    requires HeapOk(k) && Between(k, b, t)
  {
    RingAt(k.ptr, k.blocks, t);
    BetweenApart(k, b, t);
    if k.blocks[t] + k.size[k.blocks[t]] == b then JoinDown(k, b, t) else LinkIn(k, b, t)
  }

  lemma Stage2Ok(k: Heap, b: nat, t: nat)
    requires HeapOk(k) && Between(k, b, t) && b in k.size && (t + 1 < |k.blocks| ==> b + k.size[b] < k.blocks[t + 1])
    ensures var l := Stage2(k, b, t);
      && HeapOk(l) && Allocated(l) == Allocated(k) - {b} && l.unit.Keys == k.unit.Keys && t < |l.blocks| && l.blocks[t] == k.blocks[t]
      && Holds(l, t, k.size[b])
  {
    RingAt(k.ptr, k.blocks, t);
    BetweenApart(k, b, t);
    hide RingOk, Tiled, Gaps, Sizes;
    if k.blocks[t] + k.size[k.blocks[t]] == b { JoinDownOk(k, b, t); } else { LinkInOk(k, b, t); }
  }

  /** Block `t` or the one after it has at least `n` units. */
  ghost predicate Holds(h: Heap, t: nat, n: nat) {
    && t < |h.blocks|
    && ((h.blocks[t] in h.size && h.size[h.blocks[t]] >= n) || (t + 1 < |h.blocks| && h.blocks[t + 1] in h.size && h.size[h.blocks[t + 1]] >= n))
  }

  /** The block before which the search of `free` stops. */
  lemma {:induction false} FindBefore(h: Heap, b: nat, n: nat) returns (t: nat)
    requires HeapOk(h) && b in h.pieces && b !in h.blocks && 0 < n <= |h.blocks| && (n < |h.blocks| ==> b < h.blocks[n])
    ensures Between(h, b, t)
  {
    hide RingOk, Tiled;
    if h.blocks[n - 1] < b {
      t := n - 1;
    } else {
      assert h.blocks[n - 1] in h.blocks;
      t := FindBefore(h, b, n - 1);
    }
  }

  /** How far it is round the ring of `n` blocks from block `k` to block `t`. */
  function Distance(n: nat, k: nat, t: nat): nat
    requires k < n && t < n
  {
    if k <= t then t - k else n - k + t
  }

  /** The search stops at the block before `b`, and nowhere else. */
  lemma SearchStops(h: Heap, b: nat, t: nat, k: nat)
    requires HeapOk(h) && Between(h, b, t) && k < |h.blocks|
    ensures h.blocks[k] in h.ptr && h.ptr[h.blocks[k]] == h.blocks[After(|h.blocks|, k)]
    ensures var p, q := h.blocks[k], h.blocks[After(|h.blocks|, k)];
      k == t <==> (p < b < q || (p >= q && (b > p || b < q)))
  {
    RingAt(h.ptr, h.blocks, k);
    GapsRising(h.blocks, h.size);
    hide RingOk, Tiled;
  }

  class Allocator {
    const base: nat
    var ptr: Map
    var size: Map
    var freep: Option<nat>
    ghost var blocks: seq<nat>
    ghost var pieces: Map
    ghost var unit: Map

    ghost function Now(): Heap
      reads this
    {
      Heap(base, ptr, size, blocks, pieces, unit)
    }

    /** Before the first call the list is empty; from then on it is a ring with `freep` in it. */
    ghost predicate Valid()
      reads this
    {
      if freep.None? then blocks == [] && pieces == map[] && unit == map[] else HeapOk(Now()) && freep.value in blocks
    }

    constructor (base: nat)
      ensures Valid() && this.base == base && freep == None
    {
      this.base, ptr, size, freep := base, map[], map[], None;
      blocks, pieces, unit := [], map[], map[];
    }

    /** Put a block that was handed out back on the free list, joined with the free blocks next to it. */
    method Free(ap: nat) returns (ghost t: nat)
      requires Valid() && freep.Some? && ap > 0 && ap - 1 in Allocated(Now())
      modifies this
      ensures Valid() && freep.Some? && t < |blocks| && freep.value == blocks[t]
      ensures Allocated(Now()) == Allocated(old(Now())) - {ap - 1} && unit.Keys == old(unit.Keys)
      ensures ap - 1 in old(size) && Holds(Now(), t, old(size)[ap - 1])
    {
      hide HeapOk, Allocated;
      ghost var h := Now();
      var bp: nat := ap - 1;
      InAllocated(h, bp);
      t := FindBefore(h, bp, |blocks|);
      ghost var k :| 0 <= k < |blocks| && blocks[k] == freep.value;
      var p := freep.value;
      SearchStops(h, bp, t, k);
      while !(bp > p && bp < ptr[p])
        invariant 0 <= k < |blocks| && p == blocks[k] && Now() == h && p in ptr && ptr[p] == blocks[After(|blocks|, k)]
        invariant k == t <==> (p < bp < ptr[p] || (p >= ptr[p] && (bp > p || bp < ptr[p])))
        decreases Distance(|blocks|, k, t)
      {
        if p >= ptr[p] && (bp > p || bp < ptr[p]) { break; }
        p := ptr[p];
        k := After(|blocks|, k);
        SearchStops(h, bp, t, k);
      }
      LinkBlock(bp, p, t);
    }

    /** The end of `free`, once the block `p` before `bp` is known. */
    method LinkBlock(bp: nat, p: nat, ghost t: nat)
      requires HeapOk(Now()) && Between(Now(), bp, t) && p == blocks[t]
      modifies this
      ensures Valid() && freep == Some(p) && t < |blocks| && p == blocks[t]
      ensures Allocated(Now()) == Allocated(old(Now())) - {bp} && unit.Keys == old(unit.Keys)
      ensures bp in old(size) && Holds(Now(), t, old(size)[bp])
    {
      hide HeapOk, Allocated, Holds, Stage1, Stage2;
      ghost var h := Now();
      Stage1Ok(h, bp, t);
      ghost var k := Stage1(h, bp, t);
      Stage2Ok(k, bp, t);
      HoldsLess(Stage2(k, bp, t), t, k.size[bp], h.size[bp]);
      FreeHeaders(h, bp, t);
      var q := ptr[p];
      if bp + size[bp] == q {
        size := size[bp := size[bp] + size[q]];
        ptr := ptr[bp := ptr[q]];
      } else {
        ptr := ptr[bp := q];
      }
      if p + size[p] == bp {
        size := size[p := size[p] + size[bp]];
        ptr := ptr[p := ptr[bp]];
      } else {
        ptr := ptr[p := bp];
      }
      freep := Some(p);
      blocks, pieces, unit := Stage2(k, bp, t).blocks, Stage2(k, bp, t).pieces, Stage2(k, bp, t).unit;
      assert Now() == Stage2(k, bp, t);
    }

    /** Ask for at least `nu` units more; `grant` is what `sbrk` returns. */
    method Morecore(nu: nat, grant: Option<nat>) returns (r: Option<nat>, ghost t: nat)
      requires Valid() && freep.Some? && (grant.Some? ==> NewAt(Now(), grant.value, nu))
      modifies this
      ensures Valid() && freep.Some? && (grant.None? <==> r.None?)
      ensures r.None? ==> unchanged(this)
      ensures r.Some? ==> r == freep && t < |blocks| && freep.value == blocks[t] && Holds(Now(), t, nu)
      ensures r.Some? ==> Allocated(Now()) == Allocated(old(Now()))
      ensures r.Some? ==> forall u: nat :: u in unit <==> u in old(unit) || grant.value <= u < grant.value + if nu < 4096 then 4096 else nu
    {
      hide HeapOk, Allocated, Holds;
      if grant.None? { return None, 0; }
      var n, a := AtLeast(nu), grant.value;
      ghost var h := Now();
      NewBlock(a, n);
      t := Free(a + 1);
      HoldsLess(Now(), t, n, nu);
      assert Allocated(h)[a := n] - {a} == Allocated(h);
      r := freep;
    }

    /** The header of what `sbrk` granted: from now on it is a block like one that was handed out. */
    method NewBlock(a: nat, n: nat)
      requires Valid() && freep.Some? && base < a && n > 0 && forall u: nat :: a <= u < a + n ==> u !in unit
      modifies this`size, this`pieces, this`unit
      ensures Valid() && a in size && size[a] == n && a !in Allocated(old(Now())) && a in Allocated(Now())
      ensures Allocated(Now()) == Allocated(old(Now()))[a := n]
      ensures forall u: nat :: u in unit.Keys <==> u in old(unit) || a <= u < a + n
    {
      hide HeapOk, Allocated, Fresh;
      ghost var h := Now();
      GrantOk(h, a, n);
      GrantNew(h, a);
      size := size[a := n];
      pieces, unit := pieces[a := n], Fresh(unit, a, n);
      assert Now() == Grant(h, a, n);
    }

    /** What `malloc` does with a block `p` that is large enough: unlink it, or cut its tail off. */
    method Take(prevp: nat, p: nat, nunits: nat, ghost k: nat) returns (a: nat)
      requires HeapOk(Now()) && 0 < k < |blocks| && p == blocks[k] && prevp == blocks[k - 1]
      requires nunits > 0 && p in size && size[p] >= nunits
      modifies this
      ensures Valid() && freep == Some(prevp)
      ensures Allocated(Now()) == Allocated(old(Now()))[a := nunits] && unit.Keys == old(unit.Keys)
      ensures a !in Allocated(old(Now())) && a + nunits == p + old(size[p])
    {
      hide HeapOk, Allocated;
      ghost var h := Now();
      TakeReady(h, k, nunits);
      if size[p] == nunits {
        TakeWholeOk(h, k);
        ptr := ptr[prevp := ptr[p]];
        blocks := blocks[..k] + blocks[k + 1..];
        assert Now() == TakeWhole(h, k);
        a := p;
      } else {
        CarveOk(h, k, nunits);
        ghost var l := Carve(h, k, nunits);
        size := size[p := size[p] - nunits];
        a := p + size[p];
        size := size[a := nunits];
        pieces, unit := l.pieces, l.unit;
        assert Now() == l;
      }
      freep := Some(prevp);
      assert blocks[k - 1] == prevp;
    }

    /** One round of the ring: the first block after `freep` with `nunits` units, and the block before it. */
    method Scan(nunits: nat) returns (found: bool, prevp: nat, p: nat, ghost k: nat)
      requires Valid() && freep.Some? && nunits > 0
      ensures found <==> !TooSmall(Now(), nunits)
      ensures found ==> 0 < k < |blocks| && p == blocks[k] && prevp == blocks[k - 1] && p in size && size[p] >= nunits
      ensures found ==> FirstFit(Now(), freep.value, p, nunits)
    {
      hide HeapOk, TooSmall, SeenSmall, Nth, After, FirstFit, AllSmall, Follow;
      ghost var f :| 0 <= f < |blocks| && blocks[f] == freep.value;
      ghost var seen := 0;
      BlockAt(Now(), f);
      SeenNone(Now(), f, nunits);
      RisingBlocks(Now());
      FollowFirst(Now(), freep.value, nunits);
      prevp := freep.value;
      p := ptr[prevp];
      NthAfter(|blocks|, f, 0);
      NthIn(|blocks|, f);
      k := Nth(|blocks|, f, seen);
      while true
        invariant 0 <= seen < |blocks| && k == Nth(|blocks|, f, seen) && p == blocks[k]
        invariant prevp == blocks[if seen == 0 then f else Nth(|blocks|, f, seen - 1)]
        invariant SeenSmall(Now(), f, seen, nunits)
        invariant p == Follow(ptr, freep.value, seen + 1) && AllSmall(Now(), freep.value, seen + 1, nunits)
        decreases |blocks| - seen
      {
        BlockAt(Now(), k);
        if size[p] >= nunits {
          FitsFirst(Now(), freep.value, p, seen + 1, nunits);
          NotFirst(Now(), k);
          NthBefore(|blocks|, f, seen);
          NotTooSmall(Now(), k, nunits);
          return true, prevp, p, k;
        }
        SeenMore(Now(), f, seen, nunits);
        NthAfter(|blocks|, f, seen);
        if p == freep.value {
          AllSeen(Now(), f, nunits);
          return false, prevp, p, k;
        }
        FollowMore(Now(), freep.value, seen + 1, p, nunits);
        prevp, p := p, ptr[p];
        seen := seen + 1;
        k := Nth(|blocks|, f, seen);
      }
    }

    /** The loop of `malloc`: a round from `freep` on, and another one when `morecore` has found memory. */
    method Search(nunits: nat, grant: Option<nat>) returns (r: Option<nat>, ghost calls: nat)
      requires Valid() && freep.Some? && nunits > 0 && (grant.Some? ==> NewAt(Now(), grant.value, nunits))
      modifies this
      ensures Valid() && freep.Some?
      ensures calls == if TooSmall(old(Now()), nunits) then 1 else 0
      ensures r.None? ==> grant.None? && calls == 1 && unchanged(this)
      ensures r.Some? ==> r.value > 0 && r.value - 1 !in Allocated(old(Now()))
      ensures r.Some? ==> Allocated(Now()) == Allocated(old(Now()))[r.value - 1 := nunits]
      ensures r.Some? && calls == 0 ==> unit.Keys == old(unit.Keys) && EndOfFirstFit(old(Now()), old(freep), r.value - 1, nunits)
      ensures r.Some? && calls == 1 ==> grant.Some?
      ensures r.Some? && calls == 1 ==> forall u: nat :: u in unit <==> u in old(unit) || grant.value <= u < grant.value + AtLeast(nunits)
    {
      hide HeapOk, Allocated, Holds, TooSmall, NewAt, Follow, AllSmall;
      calls := 0;
      ghost var k;
      var found, prevp, p;
      found, prevp, p, k := Scan(nunits);
      if !found {
        calls := 1;
        ghost var h, t := Now(), 0;
        var q;
        q, t := Morecore(nunits, grant);
        if q.None? { return None, 1; }
        HoldsNot(Now(), t, nunits);
        found, prevp, p, k := Scan(nunits);
      }
      var a := Take(prevp, p, nunits, k);
      r := Some(a + 1);
    }

    /**
     A block of at least `nbytes` bytes beside its header: the first large enough on the list, or, when
     there is none, one cut from new memory. `grant` is what `sbrk` would return, and `calls` counts
     the calls of `morecore`.
     */
    method Malloc(nbytes: nat, grant: Option<nat>) returns (r: Option<nat>, ghost calls: nat, ghost n: nat)
      requires Valid() && (grant.Some? ==> NewAt(Now(), grant.value, Units(nbytes)))
      modifies this
      ensures Valid() && freep.Some?
      // a header and room for `nbytes` bytes, in units of 16 bytes, and not a unit more
      ensures nbytes <= 16 * (n - 1) < nbytes + 16
      ensures calls == if TooSmall(old(Now()), n) then 1 else 0
      ensures r.None? ==> grant.None? && calls == 1 && Allocated(Now()) == Allocated(old(Now())) && unit == old(unit)
      ensures r.Some? ==> r.value > 0 && r.value - 1 !in Allocated(old(Now()))
      ensures r.Some? ==> Allocated(Now()) == Allocated(old(Now()))[r.value - 1 := n]
      ensures r.Some? && calls == 0 ==> unit.Keys == old(unit.Keys) && EndOfFirstFit(old(Now()), old(freep), r.value - 1, n)
      ensures r.Some? && calls == 1 ==> grant.Some?
      ensures r.Some? && calls == 1 ==>
        forall u: nat :: u in unit <==> u in old(unit) || grant.value <= u < grant.value + if n < 4096 then 4096 else n
    {
      hide HeapOk, Allocated, Holds, TooSmall, NewAt, FirstFit;
      var nunits := (nbytes + 16 - 1) / 16 + 1;
      n := nunits;
      ghost var h := Now();
      if freep.None? {
        FirstCall(h);
        ptr, size, freep := ptr[base := base], size[base := 0], Some(base);
        blocks := [base];
        assert Now() == OneBlock(h);
      }
      StillNew(h, Now(), grant, nunits);
      r, calls := Search(nunits, grant);
    }
  }

  /** How many header-sized units `nbytes` bytes and a header take. */
  function Units(nbytes: nat): nat {
    (nbytes + 15) / 16 + 1
  }

  /** Where `i` steps along the list lead. */
  ghost function Follow(ptr: Map, a: nat, i: nat): nat {
    if i == 0 then a else
    var b := Follow(ptr, a, i - 1);
    if b in ptr then ptr[b] else b
  }

  /** The first `i - 1` blocks after `a` are too small. */
  ghost predicate AllSmall(h: Heap, a: nat, i: nat, n: nat) {
    forall m :: 0 < m < i ==> Follow(h.ptr, a, m) in h.size && h.size[Follow(h.ptr, a, m)] < n
  }

  /** `p` is the first block after `a`, along the list, with `n` units. */
  ghost predicate FirstFit(h: Heap, a: nat, p: nat, n: nat) {
    p in h.size && h.size[p] >= n && exists i :: i > 0 && Follow(h.ptr, a, i) == p && AllSmall(h, a, i, n)
  }

  lemma FollowFirst(h: Heap, a: nat, n: nat)
    ensures a in h.ptr ==> Follow(h.ptr, a, 1) == h.ptr[a]
    ensures AllSmall(h, a, 1, n)
  {
    assert Follow(h.ptr, a, 0) == a;
  }

  lemma FollowMore(h: Heap, a: nat, i: nat, p: nat, n: nat)
    requires i > 0 && Follow(h.ptr, a, i) == p && p in h.ptr && p in h.size && h.size[p] < n && AllSmall(h, a, i, n)
    ensures Follow(h.ptr, a, i + 1) == h.ptr[p] && AllSmall(h, a, i + 1, n)
  {
  }

  lemma FitsFirst(h: Heap, a: nat, p: nat, i: nat, n: nat)
    requires i > 0 && Follow(h.ptr, a, i) == p && AllSmall(h, a, i, n) && p in h.size && h.size[p] >= n
    ensures FirstFit(h, a, p, n)
  {
  }

  /** The block at `b` with `n` units is the end of the first one after `freep` that is large enough. */
  ghost predicate EndOfFirstFit(h: Heap, freep: Option<nat>, b: nat, n: nat) {
    freep.Some? && exists p :: FirstFit(h, freep.value, p, n) && b + n == p + h.size[p]
  }

  /** No free block has `n` units. */
  ghost predicate TooSmall(h: Heap, n: nat) {
    forall i :: 0 <= i < |h.blocks| && h.blocks[i] in h.size ==> h.size[h.blocks[i]] < n
  }

  /** The list as the first call of `malloc` makes it. */
  ghost function OneBlock(h: Heap): Heap {
    h.(ptr := h.ptr[h.base := h.base], size := h.size[h.base := 0], blocks := [h.base])
  }

  lemma FirstCall(h: Heap)
    requires h.blocks == [] && h.pieces == map[] && h.unit == map[]
    ensures HeapOk(OneBlock(h)) && Allocated(OneBlock(h)) == Allocated(h) && forall n :: n > 0 ==> TooSmall(h, n) && TooSmall(OneBlock(h), n)
  {
    assert Allocated(OneBlock(h)) == map[];
  }

  lemma TakeReady(h: Heap, k: nat, n: nat)
    requires HeapOk(h) && 0 < k < |h.blocks| && h.blocks[k] in h.size && 0 < n <= h.size[h.blocks[k]]
    ensures h.blocks[k] in h.ptr && h.blocks[k] in h.pieces && h.size[h.blocks[k]] == h.pieces[h.blocks[k]]
    ensures h.blocks[k] !in Allocated(h) && h.blocks[k] + h.size[h.blocks[k]] - n !in Allocated(h)
  {
    RingAt(h.ptr, h.blocks, k);
    var p := h.blocks[k];
    assert p in h.blocks && p in h.pieces;
    var b := p + h.size[p] - n;
    assert In(h.pieces, p, b) && (b in h.pieces ==> In(h.pieces, b, b));
    hide RingOk, Gaps;
  }

  // ---- the search of malloc ----

  /** The block that is looked at after `j` others, from the one after block `f` on. */
  function Nth(n: nat, f: nat, j: nat): nat
    requires f < n && j < n
  {
    if f + 1 + j < n then f + 1 + j else f + 1 + j - n
  }

  ghost predicate SeenSmall(h: Heap, f: nat, seen: nat, n: nat) {
    f < |h.blocks| && seen <= |h.blocks|
    && forall j :: 0 <= j < seen ==> h.blocks[Nth(|h.blocks|, f, j)] in h.size && h.size[h.blocks[Nth(|h.blocks|, f, j)]] < n
  }

  lemma SeenNone(h: Heap, f: nat, n: nat)
    requires f < |h.blocks|
    ensures SeenSmall(h, f, 0, n)
  {
  }

  lemma SeenMore(h: Heap, f: nat, seen: nat, n: nat)
    requires SeenSmall(h, f, seen, n) && seen < |h.blocks|
    requires h.blocks[Nth(|h.blocks|, f, seen)] in h.size && h.size[h.blocks[Nth(|h.blocks|, f, seen)]] < n
    ensures SeenSmall(h, f, seen + 1, n)
  {
  }

  lemma NthAfter(n: nat, f: nat, j: nat)
    requires f < n && j < n
    ensures j + 1 < n ==> After(n, Nth(n, f, j)) == Nth(n, f, j + 1) && Nth(n, f, j) != f
    ensures j + 1 == n ==> Nth(n, f, j) == f
    ensures Nth(n, f, 0) == After(n, f)
  {
  }

  lemma NthIn(n: nat, f: nat)
    requires f < n
    ensures forall j: nat :: j < n ==> Nth(n, f, j) < n
  {
  }

  lemma NthBefore(n: nat, f: nat, j: nat)
    requires f < n && j < n && Nth(n, f, j) > 0
    ensures (if j == 0 then f else Nth(n, f, j - 1)) == Nth(n, f, j) - 1
  {
  }

  /** A whole round leaves no block out. */
  lemma AllSeen(h: Heap, f: nat, n: nat)
    requires SeenSmall(h, f, |h.blocks|, n)
    ensures TooSmall(h, n)
  {
    forall i | 0 <= i < |h.blocks| && h.blocks[i] in h.size ensures h.size[h.blocks[i]] < n {
      var j := if i > f then i - f - 1 else i + |h.blocks| - f - 1;
      assert Nth(|h.blocks|, f, j) == i;
    }
  }

  lemma HoldsNot(h: Heap, f: nat, n: nat)
    ensures TooSmall(h, n) ==> !Holds(h, f, n)
  {
  }

  lemma NotTooSmall(h: Heap, k: nat, n: nat)
    requires k < |h.blocks| && h.blocks[k] in h.size && h.size[h.blocks[k]] >= n
    ensures !TooSmall(h, n)
  {
  }

  lemma BlockAt(h: Heap, k: nat)
    requires HeapOk(h) && k < |h.blocks|
    ensures h.blocks[k] in h.ptr && h.blocks[k] in h.size && h.ptr[h.blocks[k]] == h.blocks[After(|h.blocks|, k)]
  {
    RingAt(h.ptr, h.blocks, k);
  }

  /** The static header has no room, so it is never handed out. */
  lemma NotFirst(h: Heap, k: nat)
    requires HeapOk(h) && k < |h.blocks| && h.blocks[k] in h.size && h.size[h.blocks[k]] > 0
    ensures k > 0
  {
  }

  lemma RisingBlocks(h: Heap)
    requires HeapOk(h)
    ensures Rising(h.blocks)
  {
    GapsRising(h.blocks, h.size);
  }

  lemma StillNew(h: Heap, k: Heap, grant: Option<nat>, n: nat)
    requires k.base == h.base && k.unit == h.unit && (grant.Some? ==> NewAt(h, grant.value, n))
    ensures grant.Some? ==> NewAt(k, grant.value, n)
  {
  }

  /** What `morecore` asks for. */
  function AtLeast(nu: nat): nat {
    if nu < 4096 then 4096 else nu
  }

  /** The units that `sbrk` grants at `a` lie above `base` and are new. */
  ghost predicate NewAt(h: Heap, a: nat, nu: nat) {
    h.base < a && forall u: nat :: a <= u < a + AtLeast(nu) ==> u !in h.unit
  }

  lemma GrantNew(h: Heap, a: nat)
    requires HeapOk(h) && a !in h.unit
    ensures a !in Allocated(h)
  {
    assert a in h.pieces ==> In(h.pieces, a, a);
  }


  /** The two stages as the assignments of `free`. */
  lemma Stages(h: Heap, b: nat, t: nat)
    requires HeapOk(h) && Between(h, b, t)
    ensures b in h.size && h.blocks[t] in h.ptr && h.blocks[t] in h.size && b != h.blocks[t]
    ensures var q := h.ptr[h.blocks[t]]; b + h.size[b] == q ==> q in h.size && q in h.ptr && q != b
    ensures var q := h.ptr[h.blocks[t]]; var k := Stage1(h, b, t);
      && k.size == (if b + h.size[b] == q then h.size[b := h.size[b] + h.size[q]] else h.size)
      && k.ptr == h.ptr[b := if b + h.size[b] == q then h.ptr[q] else q][h.blocks[t] := if b + h.size[b] == q then h.ptr[q] else q]
      && k.base == h.base && k.blocks[..t + 1] == h.blocks[..t + 1]
  {
    BetweenApart(h, b, t);
    RingAt(h.ptr, h.blocks, t);
    var q := h.ptr[h.blocks[t]];
    hide RingOk, Tiled, Gaps;
    if t + 1 < |h.blocks| && b + h.size[b] == h.blocks[t + 1] {
      JoinUpReady(h, b, t);
    } else {
      assert b + h.size[b] != q;
    }
  }

  lemma Stages2(k: Heap, b: nat, t: nat)
    requires HeapOk(k) && Between(k, b, t) && b in k.size && b in k.ptr && k.blocks[t] in k.ptr && k.ptr[k.blocks[t]] == k.ptr[b]
    ensures k.blocks[t] in k.size
    ensures var p, l := k.blocks[t], Stage2(k, b, t);
      && l.size == (if p + k.size[p] == b then k.size[p := k.size[p] + k.size[b]] else k.size)
      && l.ptr == k.ptr[p := if p + k.size[p] == b then k.ptr[b] else b] && l.base == k.base
  {
    BetweenApart(k, b, t);
    RingAt(k.ptr, k.blocks, t);
    hide RingOk, Tiled, Gaps;
    var p := k.blocks[t];
    assert k.ptr[p := k.ptr[b]] == k.ptr;
    assert k.ptr[b := k.ptr[p]] == k.ptr;
  }

  lemma TwoUpdates(m: Map, b: nat, x: nat, p: nat, y: nat)
    ensures m[b := x][p := x][p := y] == m[b := x][p := y]
  {
  }

  /** The headers after `free`. */
  lemma FreeHeaders(h: Heap, b: nat, t: nat)
    requires HeapOk(h) && Between(h, b, t)
    ensures b in h.size && h.blocks[t] in h.ptr && h.blocks[t] in h.size && b != h.blocks[t]
    ensures var q := h.ptr[h.blocks[t]]; b + h.size[b] == q ==> q in h.size && q in h.ptr
    ensures HeapOk(Stage1(h, b, t)) && Between(Stage1(h, b, t), b, t)
    ensures var p := h.blocks[t];
      var q := h.ptr[p];
      var l, up := Stage2(Stage1(h, b, t), b, t), b + h.size[b] == q;
      var size' := if up then h.size[b := h.size[b] + h.size[q]] else h.size;
      var ptr' := h.ptr[b := if up then h.ptr[q] else q];
      && b in size' && p in size' && l.base == h.base
      && l.size == (if p + size'[p] == b then size'[p := size'[p] + size'[b]] else size')
      && l.ptr == ptr'[p := if p + size'[p] == b then ptr'[b] else b]
  {
    hide HeapOk, Stage1, Stage2;
    Stage1Ok(h, b, t);
    Stages(h, b, t);
    var k, p := Stage1(h, b, t), h.blocks[t];
    Stages2(k, b, t);
    var q := h.ptr[p];
    var x := if b + h.size[b] == q then h.ptr[q] else q;
    TwoUpdates(h.ptr, b, x, p, if p + k.size[p] == b then k.ptr[b] else b);
  }

  lemma InAllocated(h: Heap, b: nat)
    requires b in Allocated(h)
    ensures b in h.pieces && b !in h.blocks
  {
  }

  lemma HoldsLess(h: Heap, t: nat, n: nat, m: nat)
    requires Holds(h, t, n) && m <= n
    ensures Holds(h, t, m)
  {
  }

  /** Free and handed-out blocks share the heap out among them: every unit is in exactly one. */
  lemma UnitsConserved(h: Heap, u: nat)
    requires HeapOk(h)
    ensures u in h.unit <==> exists a :: In(h.pieces, a, u)
    ensures forall a, b :: In(h.pieces, a, u) && In(h.pieces, b, u) ==> a == b
    ensures forall a :: a in h.pieces <==> a in Allocated(h) || (a in h.blocks && a != h.base)
  {
    hide RingOk, Gaps;
    if u in h.unit { assert In(h.pieces, h.unit[u], u); }
    forall a | a in h.blocks && a != h.base ensures a in h.pieces {
      var i :| 0 <= i < |h.blocks| && h.blocks[i] == a;
    }
  }
}
