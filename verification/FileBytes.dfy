/** A file as a sequence of bytes, and what writing part of it means. */
module FileBytes {
  import opened DiskLayout
  import opened Inodes

  const MAXBYTES := MAXFILE * BSIZE

  function ByteAt(t: Fsys, j: nat, x: nat): Byte
    requires Shaped(t) && j < |t.nodes| && x < MAXBYTES
  {
    DataOf(t, j, x / BSIZE)[x % BSIZE]
  }

  /**
   Where byte `x` of a file is: in one of twelve blocks that the inode names, or in one of 256 that the
   indirect block does, four bytes each, the low ones first. Where no block is named there are zeroes.
   */
  lemma BytePlace(t: Fsys, j: nat, x: nat)
    requires Shaped(t) && j < |t.nodes| && x < 274432 && (forall i :: 0 <= i < 13 ==> t.nodes[j].addrs[i] < |t.disk|)
    ensures var addrs, bn := t.nodes[j].addrs, x / 1024;
      if bn < 12 then ByteAt(t, j, x) == if addrs[bn] == 0 then 0 else t.disk[addrs[bn]][x % 1024]
      else if addrs[12] == 0 then ByteAt(t, j, x) == 0
      else
        var blk, o := t.disk[addrs[12]], 4 * (bn - 12);
        var b0: nat, b1: nat, b2: nat, b3: nat := blk[o], blk[o + 1], blk[o + 2], blk[o + 3];
        var b := b0 + 256 * b1 + 65536 * b2 + 16777216 * b3;
        b < |t.disk| ==> ByteAt(t, j, x) == if b == 0 then 0 else t.disk[b][x % 1024]
  {
  }

  ghost function Content(t: Fsys, j: nat): (c: seq<Byte>)
    requires Shaped(t) && j < |t.nodes| && t.nodes[j].size <= MAXBYTES
    ensures |c| == t.nodes[j].size && forall x :: 0 <= x < |c| ==> c[x] == ByteAt(t, j, x)
  {
    seq(t.nodes[j].size, x requires 0 <= x < t.nodes[j].size => ByteAt(t, j, x))
  }

  /** `data` written at `off`: it replaces what is there, and extends the sequence when it reaches past the end. */
  function Spliced(c: seq<Byte>, off: nat, data: seq<Byte>): seq<Byte>
    requires off <= |c|
  {
    c[..off] + data + if off + |data| < |c| then c[off + |data|..] else []
  }

  // ---- writing chunk by chunk ----

  /** Nothing but inode `j` and its blocks has changed since `t`, and no block has left a slot. */
  ghost predicate Mine(t: Fsys, u: Fsys, j: nat)
    requires Shaped(t) && Shaped(u)
  {
    && |u.nodes| == |t.nodes| && u.sb == t.sb && j < |t.nodes|
    && u.nodes[j] == t.nodes[j].(addrs := u.nodes[j].addrs)
    && (forall k :: 0 <= k < |t.nodes| && k != j ==> u.nodes[k] == t.nodes[k])
    && (forall n: nat :: n < SLOTS && Value(t, j, n) != 0 ==> Value(u, j, n) == Value(t, j, n))
    && (forall k: nat, bn: nat :: k < |t.nodes| && k != j && bn < MAXFILE ==> DataOf(u, k, bn) == DataOf(t, k, bn))
  }

  /** The first `tot` bytes of `src` are in the file from `off` on; the rest of it is as it was. */
  ghost predicate Written(t: Fsys, u: Fsys, j: nat, off: nat, src: seq<Byte>, tot: nat)
    requires Shaped(t) && Shaped(u)
  {
    && Mine(t, u, j) && tot <= |src|
    && (forall x: nat :: x < MAXBYTES ==> ByteAt(u, j, x) == if off <= x < off + tot then src[x - off] else ByteAt(t, j, x))
    && (forall bn: nat :: bn < MAXFILE && off / BSIZE <= bn && bn * BSIZE < off + tot ==> Value(u, j, Index(bn)) != 0)
  }

  lemma WrittenNone(t: Fsys, j: nat, off: nat, src: seq<Byte>)
    requires Shaped(t) && Complete(t) && j < |t.nodes| && off <= t.nodes[j].size
    ensures Written(t, t, j, off, src, 0)
  {
    hide Value, DataOf;
  }

  lemma WrittenGrew(t: Fsys, u: Fsys, v: Fsys, j: nat, i: nat, off: nat, src: seq<Byte>, tot: nat)
    requires Shaped(t) && Shaped(u) && Shaped(v) && Written(t, u, j, off, src, tot) && Grew(u, v, j, i)
    ensures Written(t, v, j, off, src, tot)
  {
    hide Value, DataOf;
    assert Mine(t, v, j);
    forall x: nat | x < MAXBYTES ensures ByteAt(v, j, x) == ByteAt(u, j, x) {
      assert DataOf(v, j, x / BSIZE) == DataOf(u, j, x / BSIZE);
    }
    hide ByteAt;
  }

  function Patched(blk: Block, o: nat, part: seq<Byte>): Block
    requires o + |part| <= BSIZE
  {
    blk[..o] + part + blk[o + |part|..]
  }

  /** One block of the file replaced. */
  ghost predicate Replaced(t: Fsys, u: Fsys, j: nat, bn: nat, blk: Block)
    requires Shaped(t) && Shaped(u)
  {
    && SameSlots(t, u) && u.nodes == t.nodes && u.sb == t.sb
    && forall k: nat, n: nat :: k < |t.nodes| && n < MAXFILE ==> DataOf(u, k, n) == if k == j && n == bn then blk else DataOf(t, k, n)
  }

  lemma WrittenMore(t: Fsys, u: Fsys, v: Fsys, j: nat, off: nat, src: seq<Byte>, tot: nat, m: nat)
    requires Shaped(t) && Shaped(u) && Shaped(v) && Written(t, u, j, off, src, tot) && off + |src| <= MAXBYTES
    requires 0 < m <= BSIZE - (off + tot) % BSIZE && tot + m <= |src|
    requires (off + tot) / BSIZE < MAXFILE && Value(u, j, Index((off + tot) / BSIZE)) != 0
    requires Replaced(u, v, j, (off + tot) / BSIZE, Patched(DataOf(u, j, (off + tot) / BSIZE), (off + tot) % BSIZE, src[tot..tot + m]))
    ensures Written(t, v, j, off, src, tot + m)
  {
    hide Value, DataOf;
    forall x: nat | x < MAXBYTES ensures ByteAt(v, j, x) == if off <= x < off + tot + m then src[x - off] else ByteAt(t, j, x) {
      assert ByteAt(u, j, x) == if off <= x < off + tot then src[x - off] else ByteAt(t, j, x);
      PatchedAt(u, v, j, off + tot, src[tot..tot + m], x);
    }
    forall bn: nat | bn < MAXFILE && off / BSIZE <= bn && bn * BSIZE < off + tot + m ensures Value(v, j, Index(bn)) != 0 {
      if off + tot <= bn * BSIZE { SameBlock(off + tot, m, bn); }
    }
  }

  lemma SameBlock(o: nat, m: nat, bn: nat)
    requires 0 < m <= BSIZE - o % BSIZE && o <= bn * BSIZE < o + m
    ensures bn == o / BSIZE
  {
  }

  lemma PatchedAt(u: Fsys, v: Fsys, j: nat, o: nat, part: seq<Byte>, x: nat)
    requires Shaped(u) && Shaped(v) && j < |u.nodes| && o < MAXBYTES && o % BSIZE + |part| <= BSIZE && x < MAXBYTES
    requires Replaced(u, v, j, o / BSIZE, Patched(DataOf(u, j, o / BSIZE), o % BSIZE, part))
    ensures ByteAt(v, j, x) == if o <= x < o + |part| then part[x - o] else ByteAt(u, j, x)
  {
    hide Value, DataOf;
    assert x == x / BSIZE * BSIZE + x % BSIZE && o == o / BSIZE * BSIZE + o % BSIZE;
  }

  // ---- the end of a write ----

  function Max(a: nat, b: nat): nat {
    if a < b then b else a
  }

  /** The blocks that the new size needs are all there. */
  lemma WrittenBlocks(t: Fsys, u: Fsys, j: nat, off: nat, src: seq<Byte>, tot: nat, bn: nat)
    requires Shaped(t) && Shaped(u) && Complete(t) && Written(t, u, j, off, src, tot) && off <= t.nodes[j].size
    requires bn < MAXFILE && bn * BSIZE < Max(t.nodes[j].size, off + tot)
    ensures Value(u, j, Index(bn)) != 0
  {
    hide Value, DataOf, ByteAt;
    if bn * BSIZE < t.nodes[j].size { assert Value(t, j, Index(bn)) != 0; } else { assert off / BSIZE <= bn; }
  }

  lemma WrittenContent(t: Fsys, u: Fsys, j: nat, off: nat, src: seq<Byte>, tot: nat)
    requires Shaped(t) && Shaped(u) && Written(t, u, j, off, src, tot) && off <= t.nodes[j].size <= MAXBYTES && off + tot <= MAXBYTES
    requires Shaped(WithSize(u, j, Max(t.nodes[j].size, off + tot)))
    ensures var v := WithSize(u, j, Max(t.nodes[j].size, off + tot));
      Content(v, j) == Spliced(Content(t, j), off, src[..tot])
  {
    var size := t.nodes[j].size;
    var v := WithSize(u, j, Max(size, off + tot));
    var c, d := Content(v, j), Spliced(Content(t, j), off, src[..tot]);
    forall x: nat | x < |c| ensures c[x] == d[x] {
      SizeUnseen(u, j, Max(size, off + tot), x);
      assert ByteAt(u, j, x) == if off <= x < off + tot then src[x - off] else ByteAt(t, j, x);
      hide ByteAt;
    }
  }

  lemma SizeUnseen(u: Fsys, j: nat, size: nat, x: nat)
    requires Shaped(u) && j < |u.nodes| && Shaped(WithSize(u, j, size)) && x < MAXBYTES
    ensures ByteAt(WithSize(u, j, size), j, x) == ByteAt(u, j, x)
  {
    hide Word;
  }

  lemma SameContent(t: Fsys, u: Fsys, k: nat)
    requires Shaped(t) && Shaped(u) && |u.nodes| == |t.nodes| && k < |t.nodes| && u.nodes[k].size == t.nodes[k].size <= MAXBYTES
    requires forall bn: nat :: bn < MAXFILE ==> DataOf(u, k, bn) == DataOf(t, k, bn)
    ensures Content(u, k) == Content(t, k)
  {
    hide DataOf;
    forall x: nat | x < t.nodes[k].size ensures ByteAt(u, k, x) == ByteAt(t, k, x) {
      assert DataOf(u, k, x / BSIZE) == DataOf(t, k, x / BSIZE);
    }
    hide ByteAt;
    assert Content(u, k) == Content(t, k);
  }

  /** The whole effect of a write: `data` is in file `j` at `off`, and no other file has changed. */
  ghost predicate Stored(t: Fsys, u: Fsys, j: nat, off: nat, data: seq<Byte>)
    requires Shaped(t) && Shaped(u)
  {
    && |u.nodes| == |t.nodes| && u.sb == t.sb && j < |t.nodes|
    && (forall k :: 0 <= k < |t.nodes| ==> t.nodes[k].size <= MAXBYTES && u.nodes[k].size <= MAXBYTES)
    && (forall k :: 0 <= k < |t.nodes| && k != j ==> u.nodes[k] == t.nodes[k])
    && u.nodes[j] == t.nodes[j].(addrs := u.nodes[j].addrs, size := Max(t.nodes[j].size, off + |data|))
    && off <= t.nodes[j].size && Content(u, j) == Spliced(Content(t, j), off, data)
    && (forall k: nat :: k < |t.nodes| && k != j ==> Content(u, k) == Content(t, k))
  }

  lemma StoredNone(t: Fsys, j: nat, off: nat)
    requires Shaped(t) && Complete(t) && j < |t.nodes| && off <= t.nodes[j].size
    ensures Stored(t, t, j, off, [])
  {
    hide Value, ByteAt;
    assert Content(t, j) == Spliced(Content(t, j), off, []);
  }

  lemma WrittenStored(t: Fsys, u: Fsys, v: Fsys, j: nat, off: nat, src: seq<Byte>, tot: nat)
    requires Shaped(t) && Shaped(u) && Shaped(v) && Complete(t) && Written(t, u, j, off, src, tot)
    requires off <= t.nodes[j].size && off + tot <= MAXBYTES
    requires v.nodes == WithSize(u, j, Max(t.nodes[j].size, off + tot)).nodes && v.sb == u.sb
    requires Shaped(WithSize(u, j, Max(t.nodes[j].size, off + tot))) && SameData(WithSize(u, j, Max(t.nodes[j].size, off + tot)), v)
    ensures Stored(t, v, j, off, src[..tot])
  {
    var w := WithSize(u, j, Max(t.nodes[j].size, off + tot));
    WrittenContent(t, u, j, off, src, tot);
    SameContent(w, v, j);
    forall k: nat | k < |t.nodes| && k != j ensures Content(v, k) == Content(t, k) {
      forall bn: nat | bn < MAXFILE ensures DataOf(v, k, bn) == DataOf(t, k, bn) {
        SizeAway(u, j, Max(t.nodes[j].size, off + tot), k, bn);
        hide DataOf, Value;
      }
      SameContent(t, v, k);
    }
    hide Value, ByteAt, DataOf, Content, Spliced;
  }

  lemma SizeAway(u: Fsys, j: nat, size: nat, k: nat, bn: nat)
    requires Shaped(u) && j < |u.nodes| && Shaped(WithSize(u, j, size)) && k < |u.nodes| && bn < MAXFILE
    ensures DataOf(WithSize(u, j, size), k, bn) == DataOf(u, k, bn)
  {
    hide Word;
  }

  /** What was written is what is read back. */
  lemma ReadBack(c: seq<Byte>, off: nat, data: seq<Byte>)
    requires off <= |c|
    ensures off + |data| <= |Spliced(c, off, data)| && Spliced(c, off, data)[off..off + |data|] == data
    ensures |Spliced(c, off, data)| == Max(|c|, off + |data|)
    ensures forall x :: 0 <= x < |c| && !(off <= x < off + |data|) ==> Spliced(c, off, data)[x] == c[x]
  {
  }

  lemma StoredReadsBack(t: Fsys, u: Fsys, j: nat, off: nat, data: seq<Byte>)
    requires Shaped(t) && Shaped(u) && Stored(t, u, j, off, data)
    ensures off + |data| <= |Content(u, j)| && Content(u, j)[off..off + |data|] == data
    ensures |Content(u, j)| == Max(|Content(t, j)|, off + |data|)
    ensures forall x :: 0 <= x < |Content(t, j)| && !(off <= x < off + |data|) ==> Content(u, j)[x] == Content(t, j)[x]
  {
    ReadBack(Content(t, j), off, data);
    hide Content, Spliced;
  }

  lemma SplicedTwice(c: seq<Byte>, off: nat, a: seq<Byte>, b: seq<Byte>)
    requires off <= |c|
    ensures off + |a| <= |Spliced(c, off, a)|
    ensures Spliced(Spliced(c, off, a), off + |a|, b) == Spliced(c, off, a + b)
  {
    var d, e := Spliced(Spliced(c, off, a), off + |a|, b), Spliced(c, off, a + b);
    assert |d| == |e|;
    assert forall x :: 0 <= x < |d| ==> d[x] == e[x];
  }

  /** One write after another, where the first ended, is one write. */
  lemma StoredTwice(t: Fsys, u: Fsys, v: Fsys, j: nat, off: nat, a: seq<Byte>, b: seq<Byte>)
    requires Shaped(t) && Shaped(u) && Shaped(v) && Stored(t, u, j, off, a) && Stored(u, v, j, off + |a|, b)
    ensures Stored(t, v, j, off, a + b)
  {
    SplicedTwice(Content(t, j), off, a, b);
    hide Spliced, Content;
  }
}
