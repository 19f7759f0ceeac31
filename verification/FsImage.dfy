/**
 How the file system lies on the disk (fs.h, mkfs.c): super block, log, inode blocks, bitmap,
 data blocks. Abs reads the bitmap, the inode table and the data blocks off a disk; the
 lemmas say what a change of one block means there.
 */
module FsImage {
  import opened Blocks
  import opened FsModel

  const BPB: nat := BSIZE * 8  // bitmap bits per block
  const IPB: nat := BSIZE / 64  // inodes per block

  datatype Superblock = Superblock(size: nat, ninodes: nat, inodestart: nat, bmapstart: nat)

  /** First data block. */
  function Meta(sb: Superblock): nat {
    sb.bmapstart + sb.size / BPB + 1
  }

  ghost predicate GoodSb(sb: Superblock, d: Disk) {
    && |d| == sb.size <= TWO32
    && 2 <= sb.inodestart && sb.inodestart + sb.ninodes / IPB + 1 <= sb.bmapstart
    && Meta(sb) <= sb.size
  }

  function BBLOCK(b: nat, sb: Superblock): nat {
    b / BPB + sb.bmapstart
  }

  function IBLOCK(i: nat, sb: Superblock): nat {
    i / IPB + sb.inodestart
  }

  // ---------------------------------------------------------------- bits

  /** Bit k of x: (x >> k) & 1 */
  predicate BitOf(x: nat, k: nat) {
    if k == 0 then x % 2 == 1 else BitOf(x / 2, k - 1)
  }

  /** x | (1 << k), or x & ~(1 << k) */
  function SetBitOf(x: nat, k: nat, on: bool): nat {
    if k == 0 then x / 2 * 2 + (if on then 1 else 0) else SetBitOf(x / 2, k - 1, on) * 2 + x % 2
  }

  function Pow2(w: nat): nat {
    if w == 0 then 1 else 2 * Pow2(w - 1)
  }

  lemma {:induction false} SetBitBound(x: nat, k: nat, on: bool, w: nat)
    requires k < w && x < Pow2(w)
    ensures SetBitOf(x, k, on) < Pow2(w)
  {
    if k > 0 {
      SetBitBound(x / 2, k - 1, on, w - 1);
    }
  }

  lemma {:induction false} BitOfSetBit(x: nat, k: nat, on: bool, j: nat)
    ensures BitOf(SetBitOf(x, k, on), j) == if j == k then on else BitOf(x, j)
  {
    if k > 0 && j > 0 {
      BitOfSetBit(x / 2, k - 1, on, j - 1);
    }
  }

  function WithBit(x: Byte, k: nat, on: bool): Byte
    requires k < 8
  {
    ByteRange(x, k, on);
    SetBitOf(x, k, on)
  }

  lemma ByteRange(x: Byte, k: nat, on: bool)
    requires k < 8
    ensures SetBitOf(x, k, on) < 256
  {
    assert Pow2(4) == 16 && Pow2(8) == 16 * Pow2(4);
    SetBitBound(x, k, on, 8);
  }

  predicate BitAt(sb: Superblock, d: Disk, b: nat)
    requires BBLOCK(b, sb) < |d|
  {
    BitOf(d[BBLOCK(b, sb)][b % BPB / 8], b % BPB % 8)
  }

  /** The bitmap block with the bit for block b set or cleared. */
  function PutBit(blk: Block, b: nat, on: bool): Block {
    var bi := b % BPB;
    blk[bi / 8 := WithBit(blk[bi / 8], bi % 8, on)]
  }

  // -------------------------------------------------------------- inodes

  /** struct dinode as sixteen words. */
  function WordsOf(n: Dinode): (ws: seq<Word>)
    ensures |ws| == 16
  {
    [n.typ + 65536 * n.major, n.minor + 65536 * n.nlink, n.size] + n.addrs
  }

  function InodeOf(ws: seq<Word>): Dinode
    requires |ws| == 16
  {
    Dinode(ws[0] % 65536, ws[0] / 65536, ws[1] % 65536, ws[1] / 65536, ws[2], ws[3..])
  }

  lemma InodeRoundTrip(n: Dinode)
    ensures InodeOf(WordsOf(n)) == n
  {
    assert WordsOf(n)[3..] == n.addrs;
  }

  function WordsAt(blk: Block, at: nat): (ws: seq<Word>)
    requires at + 16 <= WORDS
    ensures |ws| == 16
  {
    seq<Word>(16, k requires 0 <= k < 16 => WordAt(blk, at + k))
  }

  function InodeAt(sb: Superblock, d: Disk, i: nat): Dinode
    requires IBLOCK(i, sb) < |d|
  {
    InodeOf(WordsAt(d[IBLOCK(i, sb)], i % IPB * 16))
  }

  /** The inode block with inode i's place overwritten. */
  function PutInode(blk: Block, i: nat, n: Dinode): Block {
    PutWords(blk, i % IPB * 16, WordsOf(n))
  }

  lemma WordsAtPutWords(blk: Block, to: nat, vs: seq<Word>, at: nat)
    requires |vs| == 16 && to + 16 <= WORDS && at + 16 <= WORDS
    requires at == to || at + 16 <= to || to + 16 <= at
    ensures WordsAt(PutWords(blk, to, vs), at) == if at == to then vs else WordsAt(blk, at)
  {
    hide WordAt, PutWords;
    var ws := WordsAt(PutWords(blk, to, vs), at);
    forall k | 0 <= k < 16
      ensures ws[k] == if at == to then vs[k] else WordsAt(blk, at)[k]
    {
      WordAtPutWords(blk, to, vs, at + k);
    }
  }

  lemma WordsAtPutInode(blk: Block, i: nat, n: Dinode, j: nat)
    ensures WordsAt(PutInode(blk, i, n), j % IPB * 16) ==
            if j % IPB == i % IPB then WordsOf(n) else WordsAt(blk, j % IPB * 16)
  {
    hide WordsAt, WordsOf, PutWords;
    WordsAtPutWords(blk, i % IPB * 16, WordsOf(n), j % IPB * 16);
  }

  // ----------------------------------------------------------------- disk

  function DataBlock(sb: Superblock, d: Disk, b: nat): Block
    requires b < |d|
  {
    if b < Meta(sb) then ZeroBlock() else d[b]
  }

  /** The file system that a disk holds. */
  function Abs(sb: Superblock, d: Disk): (f: Fs)
    requires GoodSb(sb, d)
    ensures f.meta == Meta(sb) && |f.bits| == |f.blocks| == sb.size && |f.inodes| == sb.ninodes
  {
    Fs(Meta(sb),
       seq(sb.size, b requires 0 <= b < sb.size => BitAt(sb, d, b)),
       seq(sb.ninodes, i requires 0 <= i < sb.ninodes => InodeAt(sb, d, i)),
       seq<Block>(sb.size, b requires 0 <= b < sb.size => DataBlock(sb, d, b)))
  }

  lemma BitsAre(sb: Superblock, d: Disk, b: nat)
    requires GoodSb(sb, d) && b < sb.size
    ensures BBLOCK(b, sb) < |d| && Abs(sb, d).bits[b] == BitAt(sb, d, b)
  {
  }

  lemma DataIs(sb: Superblock, d: Disk, a: nat)
    requires GoodSb(sb, d) && Meta(sb) <= a < sb.size
    ensures Abs(sb, d).blocks[a] == d[a]
  {
  }

  lemma BitmapIndex(b: nat, bi: nat)
    requires b % BPB == 0 && bi < BPB
    ensures (b + bi) % BPB == bi && (b + bi) / BPB == b / BPB
  {
  }

  lemma InodesAre(sb: Superblock, d: Disk, i: nat)
    requires GoodSb(sb, d) && i < sb.ninodes
    ensures IBLOCK(i, sb) < |d| && Abs(sb, d).inodes[i] == InodeAt(sb, d, i)
  {
  }

  lemma BitPosition(b: nat, c: nat)
    requires b / BPB == c / BPB && b % BPB / 8 == c % BPB / 8 && b % BPB % 8 == c % BPB % 8
    ensures b == c
  {
  }

  lemma BitAtPutBit(sb: Superblock, d: Disk, b: nat, on: bool, c: nat)
    requires BBLOCK(b, sb) < |d| && BBLOCK(c, sb) < |d|
    ensures BitAt(sb, d[BBLOCK(b, sb) := PutBit(d[BBLOCK(b, sb)], b, on)], c) == if c == b then on else BitAt(sb, d, c)
  {
    hide SetBitOf, BitOf;
    BitOfSetBit(d[BBLOCK(b, sb)][b % BPB / 8], b % BPB % 8, on, c % BPB % 8);
    if b / BPB == c / BPB && b % BPB / 8 == c % BPB / 8 && b % BPB % 8 == c % BPB % 8 {
      BitPosition(b, c);
    }
  }

  lemma BitmapAboveInodes(sb: Superblock, d: Disk, b: nat)
    requires GoodSb(sb, d) && b < sb.size
    ensures sb.bmapstart <= BBLOCK(b, sb) < Meta(sb)
  {
  }

  lemma InodesBelowBitmap(sb: Superblock, d: Disk, i: nat)
    requires GoodSb(sb, d) && i < sb.ninodes
    ensures IBLOCK(i, sb) < sb.bmapstart
  {
  }

  lemma PutBitAbs(sb: Superblock, d: Disk, b: nat, on: bool)
    requires GoodSb(sb, d) && b < sb.size
    ensures BBLOCK(b, sb) < |d|
    ensures var e := d[BBLOCK(b, sb) := PutBit(d[BBLOCK(b, sb)], b, on)];
            Abs(sb, e) == Abs(sb, d).(bits := Abs(sb, d).bits[b := on])
  {
    BitmapAboveInodes(sb, d, b);
    var e := d[BBLOCK(b, sb) := PutBit(d[BBLOCK(b, sb)], b, on)];
    hide BitAt, InodeAt, PutBit;
    forall c | 0 <= c < sb.size
      ensures Abs(sb, e).bits[c] == if c == b then on else Abs(sb, d).bits[c]
    {
      BitmapAboveInodes(sb, d, c);
      BitAtPutBit(sb, d, b, on, c);
    }
    forall i | 0 <= i < sb.ninodes
      ensures Abs(sb, e).inodes[i] == Abs(sb, d).inodes[i]
    {
      InodesBelowBitmap(sb, d, i);
      InodeAtSame(sb, d, e, i);
    }
    assert Abs(sb, e).bits == Abs(sb, d).bits[b := on];
    assert Abs(sb, e).inodes == Abs(sb, d).inodes;
    assert Abs(sb, e).blocks == Abs(sb, d).blocks;
  }

  lemma InodeAtSame(sb: Superblock, d: Disk, e: Disk, i: nat)
    requires IBLOCK(i, sb) < |d| == |e| && d[IBLOCK(i, sb)] == e[IBLOCK(i, sb)]
    ensures InodeAt(sb, d, i) == InodeAt(sb, e, i)
  {
  }

  lemma BitAtSame(sb: Superblock, d: Disk, e: Disk, b: nat)
    requires BBLOCK(b, sb) < |d| == |e| && d[BBLOCK(b, sb)] == e[BBLOCK(b, sb)]
    ensures BitAt(sb, d, b) == BitAt(sb, e, b)
  {
  }

  lemma InodeAtPutInode(sb: Superblock, d: Disk, i: nat, n: Dinode, j: nat)
    requires IBLOCK(i, sb) < |d| && IBLOCK(j, sb) < |d|
    ensures InodeAt(sb, d[IBLOCK(i, sb) := PutInode(d[IBLOCK(i, sb)], i, n)], j) == if j == i then n else InodeAt(sb, d, j)
  {
    hide PutInode, WordsAt, WordsOf, InodeOf;
    InodeRoundTrip(n);
    WordsAtPutInode(d[IBLOCK(i, sb)], i, n, j);
    assert j == j / IPB * IPB + j % IPB && i == i / IPB * IPB + i % IPB;
  }

  lemma PutInodeAbs(sb: Superblock, d: Disk, i: nat, n: Dinode)
    requires GoodSb(sb, d) && i < sb.ninodes
    ensures IBLOCK(i, sb) < |d|
    ensures var e := d[IBLOCK(i, sb) := PutInode(d[IBLOCK(i, sb)], i, n)];
            Abs(sb, e) == Abs(sb, d).(inodes := Abs(sb, d).inodes[i := n])
  {
    InodesBelowBitmap(sb, d, i);
    var e := d[IBLOCK(i, sb) := PutInode(d[IBLOCK(i, sb)], i, n)];
    hide BitAt, InodeAt, PutInode;
    forall j | 0 <= j < sb.ninodes
      ensures Abs(sb, e).inodes[j] == if j == i then n else Abs(sb, d).inodes[j]
    {
      InodesBelowBitmap(sb, d, j);
      InodeAtPutInode(sb, d, i, n, j);
    }
    forall c | 0 <= c < sb.size
      ensures Abs(sb, e).bits[c] == Abs(sb, d).bits[c]
    {
      BitmapAboveInodes(sb, d, c);
      BitAtSame(sb, d, e, c);
    }
    assert Abs(sb, e).bits == Abs(sb, d).bits;
    assert Abs(sb, e).inodes == Abs(sb, d).inodes[i := n];
    assert Abs(sb, e).blocks == Abs(sb, d).blocks;
  }

  lemma PutBlockAbs(sb: Superblock, d: Disk, a: nat, blk: Block)
    requires GoodSb(sb, d) && Meta(sb) <= a < sb.size
    ensures Abs(sb, d[a := blk]) == PutBlock(Abs(sb, d), a, blk)
  {
    var e := d[a := blk];
    hide BitAt, InodeAt;
    forall c | 0 <= c < sb.size
      ensures Abs(sb, e).bits[c] == Abs(sb, d).bits[c]
    {
      BitmapAboveInodes(sb, d, c);
      BitAtSame(sb, d, e, c);
    }
    forall i | 0 <= i < sb.ninodes
      ensures Abs(sb, e).inodes[i] == Abs(sb, d).inodes[i]
    {
      InodesBelowBitmap(sb, d, i);
      InodeAtSame(sb, d, e, i);
    }
    assert Abs(sb, e).bits == Abs(sb, d).bits;
    assert Abs(sb, e).inodes == Abs(sb, d).inodes;
    assert Abs(sb, e).blocks == PutBlock(Abs(sb, d), a, blk).blocks;
  }
}
