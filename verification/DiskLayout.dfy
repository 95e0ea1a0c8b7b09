/**
 The file system's blocks as bytes: little-endian words, the free bitmap and the on-disk inodes,
 each with the law that what is stored is what is read back and nothing else changes.
 */
module DiskLayout {
  const BSIZE := 1024
  const NDIRECT := 12
  const NINDIRECT := 256
  const MAXFILE := NDIRECT + NINDIRECT
  const IPB := 16
  const BPB := 8192
  const WORD := 0x1_0000_0000

  type Byte = x: nat | x < 256
  type Block = b: seq<Byte> | |b| == BSIZE witness seq(BSIZE, _ => 0)
  type Disk = seq<Block>

  function Zero(): (b: Block)
    ensures forall k :: 0 <= k < BSIZE ==> b[k] == 0
  {
    seq(BSIZE, _ => 0)
  }

  datatype Superblock = Superblock(size: nat, ninodes: nat, inodestart: nat, bmapstart: nat) {
    /** The first data block. */
    function DataStart(): nat {
      bmapstart + size / BPB + 1
    }

    /** The regions follow each other in the order mkfs lays them out. */
    predicate Ok() {
      && 0 < inodestart && inodestart + ninodes / IPB + 1 <= bmapstart
      && DataStart() <= size < WORD
    }
  }

  function IBlock(j: nat, sb: Superblock): nat {
    j / IPB + sb.inodestart
  }

  function BBlock(b: nat, sb: Superblock): nat {
    b / BPB + sb.bmapstart
  }

  /** The inodes lie one after the other, 64 bytes each, from the first inode block on. */
  lemma InodePlace(j: nat, sb: Superblock)
    ensures 1024 * IBlock(j, sb) + 64 * (j % IPB) == 1024 * sb.inodestart + 64 * j
  {
  }

  /** The bits of the bitmap lie one after the other from the first bitmap block on, eight to a byte. */
  lemma BitPlace(b: nat, sb: Superblock)
    ensures 8 * 1024 * BBlock(b, sb) + b % BPB == 8 * 1024 * sb.bmapstart + b
  {
  }

  // ---- words ----

  function Word(b: Block, i: nat): (w: nat)
    requires i < NINDIRECT
    ensures w < WORD
  {
    var b0: nat, b1: nat, b2: nat, b3: nat := b[4 * i], b[4 * i + 1], b[4 * i + 2], b[4 * i + 3];
    b0 + 256 * b1 + 65536 * b2 + 16777216 * b3
  }

  function ByteOf(w: nat, r: nat): Byte {
    if r == 0 then w % 256
    else if r == 1 then w / 256 % 256
    else if r == 2 then w / 65536 % 256
    else w / 16777216 % 256
  }

  /** The words `ws` stored from word `base` on. */
  function PutWords(b: Block, base: nat, ws: seq<nat>): Block
    requires base + |ws| <= NINDIRECT
  {
    seq(BSIZE, k requires 0 <= k < BSIZE => if base <= k / 4 < base + |ws| then ByteOf(ws[k / 4 - base], k % 4) else b[k])
  }

  lemma WordBytes(w: nat)
    requires w < WORD
    ensures var b0: nat, b1: nat, b2: nat, b3: nat := ByteOf(w, 0), ByteOf(w, 1), ByteOf(w, 2), ByteOf(w, 3);
      b0 + 256 * b1 + 65536 * b2 + 16777216 * b3 == w
  {
    assert w / 256 / 256 == w / 65536 && w / 65536 / 256 == w / 16777216;
  }

  lemma WordAfter(b: Block, base: nat, ws: seq<nat>, i: nat)
    requires base + |ws| <= NINDIRECT && i < NINDIRECT && (forall k :: 0 <= k < |ws| ==> ws[k] < WORD)
    ensures Word(PutWords(b, base, ws), i) == if base <= i < base + |ws| then ws[i - base] else Word(b, i)
  {
    if base <= i < base + |ws| { WordBytes(ws[i - base]); }
    hide ByteOf;
  }

  lemma ZeroWord(i: nat)
    requires i < NINDIRECT
    ensures Word(Zero(), i) == 0
  {
  }

  // ---- bits ----

  /** Bit `k` of `x`: what testing it with the mask `1 << k` tells. */
  predicate BitOf(x: nat, k: nat) {
    if k == 0 then x % 2 == 1 else BitOf(x / 2, k - 1)
  }

  /** `x` with the mask `1 << k` or-ed in, or masked out. */
  function WithBit(x: nat, k: nat, on: bool): nat {
    if k == 0 then x - x % 2 + (if on then 1 else 0) else 2 * WithBit(x / 2, k - 1, on) + x % 2
  }

  function Pow2(n: nat): nat {
    if n == 0 then 1 else 2 * Pow2(n - 1)
  }

  lemma {:induction false} WithBitFits(x: nat, k: nat, on: bool, n: nat)
    requires k < n && x < Pow2(n)
    ensures WithBit(x, k, on) < Pow2(n)
  {
    assert Pow2(n) == 2 * Pow2(n - 1);
    var y := if k == 0 then x / 2 else WithBit(x / 2, k - 1, on);
    assert y < Pow2(n - 1) by {
      hide WithBit;
      if k > 0 { WithBitFits(x / 2, k - 1, on, n - 1); }
    }
    hide Pow2;
  }

  lemma {:induction false} WithBitAt(x: nat, k: nat, on: bool, i: nat)
    ensures BitOf(WithBit(x, k, on), i) == if i == k then on else BitOf(x, i)
  {
    if k > 0 && i > 0 {
      WithBitAt(x / 2, k - 1, on, i - 1);
    } else if i > 0 {
      assert WithBit(x, 0, on) / 2 == x / 2;
    }
  }

  lemma ByteFits(x: Byte, k: nat, on: bool)
    requires k < 8
    ensures WithBit(x, k, on) < 256
  {
    assert Pow2(8) == 256 by { assert Pow2(4) == 16; }
    WithBitFits(x, k, on, 8);
  }

  /** The bit for block `bi` of the blocks that a bitmap block covers. */
  predicate Bit(m: Block, bi: nat)
    requires bi < BPB
  {
    BitOf(m[bi / 8], bi % 8)
  }

  function PutBit(m: Block, bi: nat, on: bool): Block
    requires bi < BPB
  {
    ByteFits(m[bi / 8], bi % 8, on);
    m[bi / 8 := WithBit(m[bi / 8], bi % 8, on)]
  }

  lemma {:induction false} ByteBit(x: nat, k: nat)
    requires k < 8
    ensures BitOf(x, k) <==> x / [1, 2, 4, 8, 16, 32, 64, 128][k] % 2 == 1
  {
    if k > 0 { ByteBit(x / 2, k - 1); }
  }

  /** Bit `bi` of a bitmap block is in its byte number `bi / 8`, the low bits first. */
  lemma BitInByte(m: Block, bi: nat)
    requires bi < 8192
    ensures var x: nat := m[bi / 8]; Bit(m, bi) <==> x / [1, 2, 4, 8, 16, 32, 64, 128][bi % 8] % 2 == 1
  {
    ByteBit(m[bi / 8], bi % 8);
  }

  lemma BitAfter(m: Block, bi: nat, on: bool, k: nat)
    requires bi < BPB && k < BPB
    ensures Bit(PutBit(m, bi, on), k) == if k == bi then on else Bit(m, k)
  {
    WithBitAt(m[bi / 8], bi % 8, on, k % 8);
    assert k / 8 == bi / 8 && k % 8 == bi % 8 ==> k == bi;
    hide BitOf, WithBit;
  }

  // ---- inodes ----

  /** The part of an inode that lives on disk; numbers below zero appear as their 16-bit patterns. */
  datatype Dinode = Dinode(kind: nat, major: nat, minor: nat, nlink: nat, size: nat, addrs: seq<nat>) {
    predicate Ok() {
      && kind < 65536 && major < 65536 && minor < 65536 && nlink < 65536 && size < WORD
      && |addrs| == NDIRECT + 1 && forall i :: 0 <= i < |addrs| ==> addrs[i] < WORD
    }
  }

  function Words(d: Dinode): (ws: seq<nat>)
    requires d.Ok()
    ensures |ws| == 16 && forall i :: 0 <= i < 16 ==> ws[i] < WORD
  {
    [d.kind + 65536 * d.major, d.minor + 65536 * d.nlink, d.size] + d.addrs
  }

  /** Word `i` of the inode in slot `n`. */
  function At(b: Block, n: nat, i: nat): (w: nat)
    requires n < IPB && i < 16
    ensures w < WORD
  {
    Word(b, 16 * n + i)
  }

  /** The inode in slot `n` of an inode block. */
  function GetDinode(b: Block, n: nat): (d: Dinode)
    requires n < IPB
    ensures d.Ok()
  {
    Dinode(At(b, n, 0) % 65536, At(b, n, 0) / 65536, At(b, n, 1) % 65536, At(b, n, 1) / 65536, At(b, n, 2),
           [At(b, n, 3), At(b, n, 4), At(b, n, 5), At(b, n, 6), At(b, n, 7), At(b, n, 8), At(b, n, 9),
            At(b, n, 10), At(b, n, 11), At(b, n, 12), At(b, n, 13), At(b, n, 14), At(b, n, 15)])
  }

  function PutDinode(b: Block, n: nat, d: Dinode): Block
    requires n < IPB && d.Ok()
  {
    PutWords(b, 16 * n, Words(d))
  }

  /** Two bytes, and four, the low one first. */
  function Short(b: Block, o: nat): nat
    requires o + 2 <= 1024
  {
    var lo: nat, hi: nat := b[o], b[o + 1];
    lo + 256 * hi
  }

  function Long(b: Block, o: nat): nat
    requires o + 4 <= 1024
  {
    Short(b, o) + 65536 * Short(b, o + 2)
  }

  lemma AtPlace(b: Block, n: nat, i: nat)
    requires n < 16 && i < 16
    ensures var o := 64 * n + 4 * i;
      At(b, n, i) == Long(b, o) && At(b, n, i) % 65536 == Short(b, o) && At(b, n, i) / 65536 == Short(b, o + 2)
  {
  }

  /** Where the fields of an inode lie in its 64 bytes. */
  lemma DinodePlace(b: Block, n: nat)
    requires n < 16
    ensures var d, o := GetDinode(b, n), 64 * n;
      && d.kind == Short(b, o) && d.major == Short(b, o + 2) && d.minor == Short(b, o + 4) && d.nlink == Short(b, o + 6)
      && d.size == Long(b, o + 8) && |d.addrs| == 13
      && forall i :: 0 <= i < 13 ==> d.addrs[i] == Long(b, o + 12 + 4 * i)
  {
    AtPlace(b, n, 0);
    AtPlace(b, n, 1);
    AtPlace(b, n, 2);
    hide At, Short, Long;
    forall i | 0 <= i < 13 ensures GetDinode(b, n).addrs[i] == Long(b, 64 * n + 12 + 4 * i) {
      AtPlace(b, n, i + 3);
    }
  }

  lemma DinodeFrom(b: Block, n: nat, d: Dinode)
    requires n < IPB && d.Ok() && forall i :: 0 <= i < 16 ==> At(b, n, i) == Words(d)[i]
    ensures GetDinode(b, n) == d
  {
    hide At;
  }

  lemma DinodeSame(b: Block, c: Block, n: nat)
    requires n < IPB && forall i :: 0 <= i < 16 ==> At(b, n, i) == At(c, n, i)
    ensures GetDinode(b, n) == GetDinode(c, n)
  {
    hide At;
  }

  lemma DinodeAfter(b: Block, n: nat, d: Dinode, k: nat)
    requires n < IPB && d.Ok() && k < IPB
    ensures GetDinode(PutDinode(b, n, d), k) == if k == n then d else GetDinode(b, k)
  {
    hide PutWords, Word, Words, GetDinode;
    var c := PutDinode(b, n, d);
    forall i | 0 <= i < 16 ensures At(c, k, i) == if k == n then Words(d)[i] else At(b, k, i) {
      WordAfter(b, 16 * n, Words(d), 16 * k + i);
    }
    if k == n { DinodeFrom(c, k, d); } else { DinodeSame(c, b, k); }
  }
}
