/**
 mkfs.c: building a file system image block by block. Proved to establish the block
 ownership that the kernel's fs.c keeps, and to store each file's bytes.
 */
module Mkfs {
  import opened Blocks
  import opened FsModel
  import opened FsImage

  const T_DIR: Short := 1
  const T_FILE: Short := 2
  const ROOTINO: nat := 1
  const DIRSIZ: nat := 14

  /**
   The image under construction: exactly the blocks from meta up to freeblock are in use,
   each by one slot; the others are still zero, and so are the inodes from freeinode on.
   */
  ghost predicate Base(f: Fs, freeblock: nat, freeinode: nat) {
    && Shape(f) && Exclusive(f) && f.meta <= freeblock <= |f.blocks|
    && (forall b: nat :: Owns(f, b) <==> f.meta <= b < freeblock)
    && (forall b :: freeblock <= b < |f.blocks| ==> f.blocks[b] == ZeroBlock())
    && (forall i: nat, s: nat :: i >= freeinode ==> Slot(f, i, s) == 0)
  }

  /** The bitmap has not been written. */
  ghost predicate Blank(bits: seq<bool>) {
    forall b: nat :: b < |bits| ==> !bits[b]
  }

  /** Nothing lies beyond the end of a file. */
  ghost predicate ZeroTails(f: Fs) {
    forall i: nat, p: nat :: i < |f.inodes| && p >= f.inodes[i].size ==> Raw(f, i, p) == 0
  }

  /** Exactly the blocks that hold bytes of file i are mapped, with an indirect block only if needed. */
  ghost predicate Tight(f: Fs, i: nat)
    requires i < |f.inodes|
  {
    MappedTo(f, i, f.inodes[i].size)
  }

  ghost predicate MappedTo(f: Fs, i: nat, size: nat) {
    && (forall bn: nat :: bn < MAXFILE ==> (Slot(f, i, SlotOf(bn)) != 0 <==> bn * BSIZE < size))
    && (Slot(f, i, NDIRECT) != 0 <==> NDIRECT * BSIZE < size)
  }

  // ------------------------------------------------------ blocks that a file takes

  function DataBlocks(size: nat): nat {
    (size + BSIZE - 1) / BSIZE
  }

  /** Blocks taken by a file of this size: its data blocks, and the indirect block if they exceed the direct slots. */
  function Used(size: nat): nat {
    DataBlocks(size) + if DataBlocks(size) > NDIRECT then 1 else 0
  }

  /** All the files, and the root directory. */
  function Needed(files: seq<InputFile>): nat {
    Used(16 * (|files| + 2)) + FileBlocks(files)
  }

  function FileBlocks(files: seq<InputFile>): nat {
    if files == [] then 0 else FileBlocks(files[..|files| - 1]) + Used(|files[|files| - 1].contents|)
  }

  lemma UsedGrows(a: nat, b: nat)
    requires a <= b
    ensures Used(a) <= Used(b)
  {
    assert DataBlocks(a) <= DataBlocks(b);
  }

  /** Bytes within one block: what mapping it takes is the difference in blocks used. */
  lemma MapCostIs(f: Fs, i: nat, m: nat)
    requires i < |f.inodes| && Tight(f, i)
    requires var at := f.inodes[i].size; m > 0 && at % BSIZE + m <= BSIZE && at / BSIZE < MAXFILE
    ensures var at := f.inodes[i].size; Used(at) + MapCost(f, i, at / BSIZE) == Used(at + m)
  {
    var at := f.inodes[i].size;
    var bn := at / BSIZE;
    assert at == bn * BSIZE + at % BSIZE;
    assert DataBlocks(at + m) == bn + 1 && DataBlocks(at) == bn + if at % BSIZE == 0 then 0 else 1;
    assert Slot(f, i, SlotOf(bn)) != 0 <==> at % BSIZE != 0;
  }

  lemma OwnsMore(f: Fs, g: Fs, freeblock: nat)
    requires forall b: nat :: Owns(f, b) <==> f.meta <= b < freeblock
    requires Owned(g) == Owned(f) + iset{freeblock} && g.meta == f.meta && f.meta <= freeblock
    ensures forall b: nat :: Owns(g, b) <==> g.meta <= b < freeblock + 1
  {
    forall b: nat
      ensures Owns(g, b) <==> g.meta <= b < freeblock + 1
    {
      assert b in Owned(g) <==> b in Owned(f) || b == freeblock;
    }
  }

  /** Giving the next free block to an empty address slot. */
  lemma TakeAddr(f: Fs, freeblock: nat, freeinode: nat, i: nat, s: nat)
    requires Base(f, freeblock, freeinode) && i < |f.inodes| && i < freeinode && s <= NDIRECT
    requires Slot(f, i, s) == 0 && freeblock < |f.blocks|
    ensures var g := SetAddr(f, i, s, freeblock);
            && Base(g, freeblock + 1, freeinode) && SameRaw(f, g)
            && SlotsWith(f, g, i, s, freeblock) && Slot(g, i, s) == freeblock != 0
  {
    SetAddrKeeps(f, i, s, freeblock);
    OwnsMore(f, SetAddr(f, i, s, freeblock), freeblock);
  }

  lemma TakeEntry(f: Fs, freeblock: nat, freeinode: nat, i: nat, e: nat)
    requires Base(f, freeblock, freeinode) && i < |f.inodes| && i < freeinode && e < NINDIRECT
    requires IsData(f, f.inodes[i].addrs[NDIRECT])
    requires Slot(f, i, NDIRECT + 1 + e) == 0 && freeblock < |f.blocks|
    ensures var g := SetEntry(f, i, e, freeblock);
            && Base(g, freeblock + 1, freeinode) && SameRaw(f, g)
            && SlotsWith(f, g, i, NDIRECT + 1 + e, freeblock) && Slot(g, i, NDIRECT + 1 + e) == freeblock != 0
  {
    var r := f.inodes[i].addrs[NDIRECT];
    assert Slot(f, i, NDIRECT) == r && Owns(f, r);
    SetEntryKeeps(f, i, e, freeblock);
    OwnsMore(f, SetEntry(f, i, e, freeblock), freeblock);
  }

  /** Writing a block that is in use. */
  lemma WriteUsed(f: Fs, freeblock: nat, freeinode: nat, h: Fs, a: nat, blk: Block)
    requires Base(f, freeblock, freeinode) && f.meta <= a < freeblock && h == PutBlock(f, a, blk)
    requires SameSlots(f, h) && Exclusive(h) && Owned(h) == Owned(f)
    ensures Base(h, freeblock, freeinode)
  {
    forall b: nat
      ensures Owns(h, b) <==> h.meta <= b < freeblock
    {
      assert b in Owned(h) <==> b in Owned(f);
    }
  }

  /** The bitmap that marks the first `freeblock` blocks completes the image. */
  lemma ImageIsGood(f: Fs, freeblock: nat, freeinode: nat)
    requires Base(f, freeblock, freeinode)
    requires forall b :: 0 <= b < |f.bits| ==> (f.bits[b] <==> b < freeblock)
    ensures Good(f)
  {
    forall b: nat | b < |f.bits|
      ensures f.bits[b] <==> b < f.meta || b in Owned(f)
    {
    }
  }

  /** Rounding the size up past the next block boundary leaves a mapped file iff it was not on one. */
  lemma RoundedSizeMapped(f: Fs, i: nat, fixed: Word)
    requires Shape(f) && i < |f.inodes| && Tight(f, i) && f.inodes[i].size <= MAXFILE * BSIZE
    requires fixed == (f.inodes[i].size / BSIZE + 1) * BSIZE
    ensures Mapped(SetSize(f, i, fixed), i) <==> f.inodes[i].size % BSIZE != 0
  {
    var size := f.inodes[i].size;
    var g := SetSize(f, i, fixed);
    SetSizeKeeps(f, i, fixed);
    if size % BSIZE != 0 {
      forall p: nat | p < fixed
        ensures Slot(g, i, SlotOf(p / BSIZE)) != 0
      {
        assert Slot(f, i, SlotOf(p / BSIZE)) != 0;
      }
    } else {
      assert size / BSIZE * BSIZE == size;
      assert Slot(f, i, SlotOf(size / BSIZE)) == 0;
      assert Slot(g, i, SlotOf(size / BSIZE)) == 0;
    }
  }

  /** g is f with `data` appended to file i. */
  ghost predicate Appended(f: Fs, g: Fs, i: nat, data: seq<Byte>) {
    && i < |f.inodes| == |g.inodes| && f.inodes[i].size + |data| <= MAXFILE * BSIZE
    && g.inodes == f.inodes[i := f.inodes[i].(size := f.inodes[i].size + |data|, addrs := g.inodes[i].addrs)]
    && Overlaid(f, g, i, f.inodes[i].size, data)
    && (forall j: nat, t: nat :: j != i ==> Slot(g, j, t) == Slot(f, j, t))
    && Tight(g, i)
  }

  /** A block of file i has been mapped if it was not; nothing else has changed. */
  ghost predicate MapsBlock(f: Fs, g: Fs, i: nat, bn: nat) {
    && i < |f.inodes| == |g.inodes| && g.inodes == f.inodes[i := f.inodes[i].(addrs := g.inodes[i].addrs)]
    && SameRaw(f, g) && Slot(g, i, SlotOf(bn)) != 0
    && forall j: nat, t: nat :: Slot(g, j, t) == Slot(f, j, t) || (j == i && (t == SlotOf(bn) || (t == NDIRECT && bn >= NDIRECT)))
  }

  /** One round of iappend's loop: map block, copy bytes into it, move the end of the file. */
  lemma AppendRound(f: Fs, g0: Fs, g: Fs, i: nat, data: seq<Byte>, more: seq<Byte>, blk: Block, freeblock: nat, freeinode: nat)
    requires Appended(f, g0, i, data) && Base(g, freeblock, freeinode)
    requires var at := f.inodes[i].size + |data|;
             && at + |more| <= MAXFILE * BSIZE && |more| > 0 && at % BSIZE + |more| <= BSIZE
             && MapsBlock(g0, g, i, at / BSIZE) && IsData(g, Slot(g, i, SlotOf(at / BSIZE)))
             && var was := g.blocks[Slot(g, i, SlotOf(at / BSIZE))];
                blk == was[..at % BSIZE] + more + was[at % BSIZE + |more|..]
    ensures var at := f.inodes[i].size + |data|;
            var e := SetSize(PutBlock(g, Slot(g, i, SlotOf(at / BSIZE)), blk), i, at + |more|);
            Base(e, freeblock, freeinode) && Appended(f, e, i, data + more)
  {
    hide Raw, Overlaid, Exclusive, SameRaw, Owned;
    var off, at := f.inodes[i].size, f.inodes[i].size + |data|;
    var a := Slot(g, i, SlotOf(at / BSIZE));
    assert at / BSIZE < MAXFILE;
    OverlaidExtends(f, g0, g, i, off, data);
    OverlayOne(f, g, i, off, data, at, more, blk);
    assert Owns(g, a);
    var h := PutBlock(g, a, blk);
    WriteUsed(g, freeblock, freeinode, h, a, blk);
    SetSizeKeeps(h, i, at + |more|);
    var e := SetSize(h, i, at + |more|);
    OverlaidExtends(f, h, e, i, off, data + more);
    SameSlotsBase(h, e, freeblock, freeinode);
    TightAfter(g0, e, i, at, |more|);
  }

  lemma SameSlotsBase(f: Fs, g: Fs, freeblock: nat, freeinode: nat)
    requires Base(f, freeblock, freeinode) && SameSlots(f, g) && g == f.(inodes := g.inodes)
    ensures Base(g, freeblock, freeinode)
  {
    SameSlotsExclusive(f, g);
    forall b: nat
      ensures Owns(g, b) <==> g.meta <= b < freeblock
    {
      assert b in Owned(g) <==> b in Owned(f);
    }
  }

  lemma TightAfter(g0: Fs, e: Fs, i: nat, at: nat, m: nat)
    requires i < |g0.inodes| == |e.inodes| && Tight(g0, i) && g0.inodes[i].size == at && e.inodes[i].size == at + m && Shape(e)
    requires m > 0 && at % BSIZE + m <= BSIZE && Slot(e, i, SlotOf(at / BSIZE)) != 0
    requires forall t: nat :: t != SlotOf(at / BSIZE) && (t != NDIRECT || at / BSIZE < NDIRECT) ==> Slot(e, i, t) == Slot(g0, i, t)
    ensures Tight(e, i)
  {
    RootNeeded(g0, e, i, at, m);
    forall bn: nat | bn < MAXFILE
      ensures Slot(e, i, SlotOf(bn)) != 0 <==> bn * BSIZE < at + m
    {
      if bn != at / BSIZE {
        assert SlotOf(bn) != SlotOf(at / BSIZE) && SlotOf(bn) != NDIRECT;
        assert Slot(e, i, SlotOf(bn)) == Slot(g0, i, SlotOf(bn));
      }
    }
  }

  /** The indirect block is there exactly if the file has grown past the direct blocks. */
  lemma RootNeeded(g0: Fs, e: Fs, i: nat, at: nat, m: nat)
    requires i < |g0.inodes| && Tight(g0, i) && g0.inodes[i].size == at && Shape(e)
    requires m > 0 && at % BSIZE + m <= BSIZE && Slot(e, i, SlotOf(at / BSIZE)) != 0
    requires at / BSIZE < NDIRECT ==> Slot(e, i, NDIRECT) == Slot(g0, i, NDIRECT)
    ensures Slot(e, i, NDIRECT) != 0 <==> NDIRECT * BSIZE < at + m
  {
    var bn := at / BSIZE;
    assert at == bn * BSIZE + at % BSIZE;
    if bn >= NDIRECT {
      assert SlotOf(bn) > NDIRECT && Slot(e, i, NDIRECT) != 0;
      assert NDIRECT * BSIZE <= bn * BSIZE;
    } else {
      assert (bn + 1) * BSIZE <= NDIRECT * BSIZE;
    }
  }

  class Image {
    const sb: Superblock
    var disk: Disk
    var freeinode: nat
    var freeblock: nat

    /** main, up to the zeroed image. */
    constructor (sb: Superblock)
      requires GoodSb(sb, seq<Block>(sb.size, _ => ZeroBlock()))
      ensures this.sb == sb && Valid() && freeinode == 1 && freeblock == Meta(sb)
      ensures forall i: nat :: i < sb.ninodes ==> Now().inodes[i].size == 0
    {
      hide Abs, Base, ZeroTails, Tight, Blank;
      this.sb := sb;
      disk := seq<Block>(sb.size, _ => ZeroBlock());
      freeinode := 1;
      freeblock := Meta(sb);
      new;
      BlankImage(sb, disk);
      BlankBits(sb, disk);
    }

    ghost function Now(): Fs
      reads this
      requires GoodSb(sb, disk)
    {
      Abs(sb, disk)
    }

    ghost predicate Valid()
      reads this
    {
      && GoodSb(sb, disk) && freeinode >= 1
      && Base(Now(), freeblock, freeinode) && ZeroTails(Now()) && Blank(Now().bits)
      && forall i: nat :: i < |Now().inodes| ==> Tight(Now(), i)
    }

    /** The image with inode inum replaced by a copy not yet written back. */
    ghost function With(inum: nat, din: Dinode): Fs
      reads this
      requires GoodSb(sb, disk) && inum < sb.ninodes
    {
      Now().(inodes := Now().inodes[inum := din])
    }

    /** The block of file inum that holds byte off, mapped if necessary; din is the unwritten inode. */
    method MapBlock(inum: nat, din: Dinode, fbn: nat) returns (din': Dinode, x: nat)
      requires GoodSb(sb, disk) && inum < sb.ninodes && inum < freeinode && fbn < MAXFILE
      requires Base(With(inum, din), freeblock, freeinode) && freeblock + MapCost(With(inum, din), inum, fbn) <= sb.size
      modifies this`disk, this`freeblock
      ensures GoodSb(sb, disk) && Base(With(inum, din'), freeblock, freeinode)
      ensures Now().inodes == old(Now()).inodes && Now().bits == old(Now()).bits
      ensures freeblock == old(freeblock) + MapCost(old(With(inum, din)), inum, fbn)
      ensures din' == din.(addrs := din'.addrs) && MapsBlock(old(With(inum, din)), With(inum, din'), inum, fbn)
      ensures x == Slot(With(inum, din'), inum, SlotOf(fbn)) && IsData(With(inum, din'), x)
      ensures With(inum, din').blocks[x] == disk[x]
    {
      hide Raw, Exclusive, Abs;
      ghost var f := With(inum, din);
      din' := din;
      if fbn < NDIRECT {
        assert Slot(f, inum, fbn) == din.addrs[fbn];
        if din.addrs[fbn] == 0 {
          TakeAddr(f, freeblock, freeinode, inum, fbn);
          din' := din.(addrs := din.addrs[fbn := freeblock]);
          freeblock := freeblock + 1;
          assert With(inum, din') == SetAddr(f, inum, fbn, freeblock - 1);
        }
        x := din'.addrs[fbn];
      } else {
        din' := MapIndirect(inum, din);
        ghost var g := With(inum, din');
        assert Slot(g, inum, NDIRECT) == din'.addrs[NDIRECT];
        x := MapEntry(inum, din', fbn - NDIRECT);
        SameRawTransitive(f, g, With(inum, din'));
      }
      BaseSlot(With(inum, din'), freeblock, freeinode, inum, SlotOf(fbn));
      DataIs(sb, disk, x);
    }

    method MapIndirect(inum: nat, din: Dinode) returns (din': Dinode)
      requires GoodSb(sb, disk) && inum < sb.ninodes && inum < freeinode
      requires Base(With(inum, din), freeblock, freeinode) && (Slot(With(inum, din), inum, NDIRECT) == 0 ==> freeblock < sb.size)
      modifies this`freeblock
      ensures Base(With(inum, din'), freeblock, freeinode)
      ensures freeblock == old(freeblock) + if Slot(old(With(inum, din)), inum, NDIRECT) == 0 then 1 else 0
      ensures din' == din.(addrs := din'.addrs) && MapsSlot(old(With(inum, din)), With(inum, din'), inum, NDIRECT)
    {
      hide Raw, Exclusive, Abs;
      ghost var f := With(inum, din);
      din' := din;
      assert Slot(f, inum, NDIRECT) == din.addrs[NDIRECT];
      if din.addrs[NDIRECT] == 0 {
        TakeAddr(f, freeblock, freeinode, inum, NDIRECT);
        din' := din.(addrs := din.addrs[NDIRECT := freeblock]);
        freeblock := freeblock + 1;
        assert With(inum, din') == SetAddr(f, inum, NDIRECT, freeblock - 1);
      }
    }

    method MapEntry(inum: nat, din: Dinode, e: nat) returns (x: nat)
      requires GoodSb(sb, disk) && inum < sb.ninodes && inum < freeinode && e < NINDIRECT && din.addrs[NDIRECT] != 0
      requires Base(With(inum, din), freeblock, freeinode) && (Slot(With(inum, din), inum, NDIRECT + 1 + e) == 0 ==> freeblock < sb.size)
      modifies this`disk, this`freeblock
      ensures GoodSb(sb, disk) && Base(With(inum, din), freeblock, freeinode)
      ensures Now().inodes == old(Now()).inodes && Now().bits == old(Now()).bits
      ensures freeblock == old(freeblock) + if Slot(old(With(inum, din)), inum, NDIRECT + 1 + e) == 0 then 1 else 0
      ensures MapsSlot(old(With(inum, din)), With(inum, din), inum, NDIRECT + 1 + e)
      ensures x == Slot(With(inum, din), inum, NDIRECT + 1 + e)
    {
      hide Raw, Exclusive, Abs, WordAt;
      ghost var f := With(inum, din);
      var root := din.addrs[NDIRECT];
      assert Slot(f, inum, NDIRECT) == root;
      BaseSlot(f, freeblock, freeinode, inum, NDIRECT);
      DataIs(sb, disk, root);
      assert Slot(f, inum, NDIRECT + 1 + e) == WordAt(disk[root], e);
      x := WordAt(disk[root], e);
      if x == 0 {
        TakeEntry(f, freeblock, freeinode, inum, e);
        x := freeblock;
        freeblock := freeblock + 1;
        PutBlockAbs(sb, disk, root, PutWord(disk[root], e, x));
        disk := disk[root := PutWord(disk[root], e, x)];
        assert With(inum, din) == SetEntry(f, inum, e, x);
      }
    }

    /** Part way through iappend: `data` has been appended; din, with its size brought up to date, is unwritten. */
    ghost predicate Appending(f: Fs, inum: nat, din: Dinode, data: seq<Byte>)
      reads this
    {
      && GoodSb(sb, disk) && inum < sb.ninodes && inum < freeinode && Now().inodes == f.inodes && Now().bits == f.bits
      && Base(With(inum, din), freeblock, freeinode) && Appended(f, With(inum, din), inum, data)
    }

    /** One round of iappend's loop. */
    method AppendBlock(inum: nat, din: Dinode, data: seq<Byte>, done: nat, ghost f: Fs) returns (din': Dinode, m: nat)
      requires done < |data| && Appending(f, inum, din, data[..done])
      requires f.inodes[inum].size + |data| <= MAXFILE * BSIZE
      requires freeblock + Used(f.inodes[inum].size + |data|) <= sb.size + Used(din.size)
      modifies this`disk, this`freeblock
      ensures 0 < m <= |data| - done && Appending(f, inum, din', data[..done + m]) && din'.size == din.size + m
      ensures freeblock + Used(din.size) == old(freeblock) + Used(din'.size)
    {
      hide Raw, Exclusive, Abs, Base, Appended, MapsBlock, Slot, Used;
      AppendedSize(f, With(inum, din), inum, data[..done]);
      var off := din.size;
      var fbn := off / BSIZE;
      ghost var g0 := With(inum, din);
      m := if |data| - done < (fbn + 1) * BSIZE - off then |data| - done else (fbn + 1) * BSIZE - off;
      ChunkSize(off, |data| - done, m);
      MapCostIs(g0, inum, m);
      UsedGrows(off + m, f.inodes[inum].size + |data|);
      var x;
      din', x := MapBlock(inum, din, fbn);
      var more := data[done..done + m];
      var blk: Block := disk[x][..off % BSIZE] + more + disk[x][off % BSIZE + m..];
      ghost var g := With(inum, din');
      AppendRound(f, g0, g, inum, data[..done], more, blk, freeblock, freeinode);
      PutBlockAbs(sb, disk, x, blk);
      disk := disk[x := blk];
      din' := din'.(size := off + m);
      assert With(inum, din') == SetSize(PutBlock(g, x, blk), inum, off + m);
      assert data[..done] + more == data[..done + m];
    }

    /** iappend */
    method Iappend(inum: nat, data: seq<Byte>)
      requires Valid() && inum < freeinode && inum < sb.ninodes
      requires Now().inodes[inum].size + |data| <= MAXFILE * BSIZE
      requires freeblock + Used(Now().inodes[inum].size + |data|) <= sb.size + Used(Now().inodes[inum].size)
      modifies this`disk, this`freeblock
      ensures Valid() && Appended(old(Now()), Now(), inum, data)
      ensures freeblock + Used(old(Now()).inodes[inum].size) == old(freeblock) + Used(old(Now()).inodes[inum].size + |data|)
    {
      hide Raw, Exclusive, Abs, Base, Appended, Slot, Tight, Used;
      InodesBelowBitmap(sb, disk, inum);
      InodesAre(sb, disk, inum);
      ghost var f := Now();
      var din := InodeAt(sb, disk, inum);
      ghost var size := din.size;
      AppendedNothing(f, inum);
      var done := 0;
      assert data[..0] == [] && With(inum, din) == f;
      while done < |data|
        invariant done <= |data| && Appending(f, inum, din, data[..done]) && din.size == size + done
        invariant freeblock + Used(size) == old(freeblock) + Used(din.size)
      {
        var m;
        din, m := AppendBlock(inum, din, data, done, f);
        done := done + m;
      }
      assert data[..done] == data;
      PutInodeAbs(sb, disk, inum, din);
      disk := disk[IBLOCK(inum, sb) := PutInode(disk[IBLOCK(inum, sb)], inum, din)];
      AppendedTight(f, Now(), inum, data);
    }

    /** ialloc: the next inode, empty, of the given type and with one link. */
    method Ialloc(typ: Short) returns (inum: nat)
      requires Valid() && freeinode < sb.ninodes
      modifies this`disk, this`freeinode
      ensures Valid() && inum == old(freeinode) && freeinode == inum + 1
      ensures Now() == old(Now()).(inodes := old(Now()).inodes[inum := NewInode(typ)])
    {
      hide Raw, Exclusive, Abs, Base, Slot, Tight;
      inum := freeinode;
      InodesAre(sb, disk, inum);
      FreshInode(Now(), freeblock, freeinode, typ);
      PutInodeAbs(sb, disk, inum, NewInode(typ));
      disk := disk[IBLOCK(inum, sb) := PutInode(disk[IBLOCK(inum, sb)], inum, NewInode(typ))];
      freeinode := freeinode + 1;
    }

    /** balloc: the bitmap, with the blocks below freeblock marked. */
    method WriteBitmap()
      requires GoodSb(sb, disk) && Base(Now(), freeblock, freeinode) && Blank(Now().bits) && freeblock < BPB
      modifies this`disk
      ensures GoodSb(sb, disk) && Good(Now())
      ensures Now() == old(Now()).(bits := Now().bits)
      ensures forall b :: 0 <= b < sb.size ==> (Now().bits[b] <==> b < freeblock)
    {
      hide Raw, Exclusive, Abs, Base, Slot, Tight, BitOf, SetBitOf, Good;
      var buf := BitmapBlock(freeblock);
      ghost var f := Now();
      PutBitmapAbs(sb, disk, buf);
      disk := disk[sb.bmapstart := buf];
      forall b | 0 <= b < sb.size
        ensures Now().bits[b] <==> b < freeblock
      {
      }
      BitsOnly(f, Now(), freeblock, freeinode);
      ImageIsGood(Now(), freeblock, freeinode);
    }

    /** balloc's loop. */
    static method BitmapBlock(used: nat) returns (buf: Block)
      requires used <= BPB
      ensures forall c :: 0 <= c < BPB ==> (BitOf(buf[c / 8], c % 8) <==> c < used)
    {
      hide SetBitOf, BitOf;
      buf := ZeroBlock();
      ZeroBits();
      for i := 0 to used
        invariant forall c :: 0 <= c < BPB ==> (BitOf(buf[c / 8], c % 8) <==> c < i)
      {
        ghost var was := buf;
        buf := buf[i / 8 := WithBit(buf[i / 8], i % 8, true)];
        forall c | 0 <= c < BPB
          ensures BitOf(buf[c / 8], c % 8) <==> c < i + 1
        {
          BitOfSetBit(was[i / 8], i % 8, true, c % 8);
          if c / 8 == i / 8 {
            assert c == i / 8 * 8 + c % 8;
          }
        }
      }
    }

    /** The end of main: the root directory's size is moved past the next block boundary. */
    method FixRoot()
      requires Valid() && ROOTINO < sb.ninodes && Now().inodes[ROOTINO].size <= MAXFILE * BSIZE
      modifies this`disk
      ensures GoodSb(sb, disk) && Base(Now(), freeblock, freeinode) && Blank(Now().bits)
      ensures var f := old(Now());
              var size := f.inodes[ROOTINO].size;
              && Now() == SetSize(f, ROOTINO, (size / BSIZE + 1) * BSIZE)
              && (Mapped(Now(), ROOTINO) <==> size % BSIZE != 0) && MappedTo(Now(), ROOTINO, size)
    {
      hide Raw, Exclusive, Abs, Base, Slot, Tight, Mapped, MappedTo;
      InodesAre(sb, disk, ROOTINO);
      var din := InodeAt(sb, disk, ROOTINO);
      var off := (din.size / BSIZE + 1) * BSIZE;
      ghost var f := Now();
      BaseShape(f, freeblock, freeinode);
      RoundedSizeMapped(f, ROOTINO, off);
      SetSizeKeeps(f, ROOTINO, off);
      SameSlotsBase(f, SetSize(f, ROOTINO, off), freeblock, freeinode);
      TightMapped(f, SetSize(f, ROOTINO, off), ROOTINO);
      PutInodeAbs(sb, disk, ROOTINO, din.(size := off));
      disk := disk[IBLOCK(ROOTINO, sb) := PutInode(disk[IBLOCK(ROOTINO, sb)], ROOTINO, din.(size := off))];
      assert Now() == SetSize(f, ROOTINO, off);
    }

    /** One input file: an inode, an entry for it in the root directory, and its bytes. */
    method AddFile(name: seq<Byte>, contents: seq<Byte>) returns (inum: nat)
      requires Valid() && ROOTINO < freeinode < sb.ninodes && freeinode < 65536
      requires Now().inodes[ROOTINO].size % 16 == 0 && Now().inodes[ROOTINO].size + 16 <= MAXFILE * BSIZE
      requires |contents| <= MAXFILE * BSIZE
      requires freeblock + Used(Now().inodes[ROOTINO].size + 16) + Used(|contents|) <= sb.size + Used(Now().inodes[ROOTINO].size)
      modifies this`disk, this`freeblock, this`freeinode
      ensures Valid() && inum == old(freeinode) && freeinode == inum + 1
      ensures freeblock + Used(old(Now()).inodes[ROOTINO].size) == old(freeblock) + Used(old(Now()).inodes[ROOTINO].size + 16) + Used(|contents|)
      ensures Contents(Now(), inum) == contents
      ensures Contents(Now(), ROOTINO) == old(Contents(Now(), ROOTINO)) + Dirent(inum, name)
      ensures forall j :: 0 <= j < sb.ninodes && j != inum && j != ROOTINO ==> Contents(Now(), j) == old(Contents(Now(), j))
      ensures forall j :: 0 <= j < sb.ninodes ==> Kind(Now().inodes[j]) == if j == inum then (T_FILE, 1) else Kind(old(Now()).inodes[j])
    {
      hide Raw, Exclusive, Abs, Base, Slot, Tight, ZeroTails, Appended, Contents, Dirent, Used;
      ghost var f0 := Now();
      inum := Ialloc(T_FILE);
      ghost var f1 := Now();
      Iappend(ROOTINO, Dirent(inum, name));
      ghost var f2 := Now();
      AppendedSize(f1, f2, ROOTINO, Dirent(inum, name));
      AppendedOther(f1, f2, ROOTINO, Dirent(inum, name), inum);
      CopyIn(inum, contents);
      AppendedKinds(f1, f2, ROOTINO, Dirent(inum, name));
      AppendedKinds(f2, Now(), inum, contents);
      forall j | 0 <= j < sb.ninodes
        ensures Contents(Now(), j) == if j == inum then contents
                                      else if j == ROOTINO then Contents(f0, j) + Dirent(inum, name) else Contents(f0, j)
      {
        FreshContents(f0, inum, T_FILE, j);
        AppendedContents(f1, f2, ROOTINO, Dirent(inum, name), j);
        AppendedContents(f2, Now(), inum, contents, j);
      }
    }

    /** main's read loop: the file in pieces of at most a block. */
    method CopyIn(inum: nat, contents: seq<Byte>)
      requires Valid() && inum < freeinode && inum < sb.ninodes && Now().inodes[inum].size == 0
      requires |contents| <= MAXFILE * BSIZE && freeblock + Used(|contents|) <= sb.size
      modifies this`disk, this`freeblock
      ensures Valid() && Appended(old(Now()), Now(), inum, contents)
      ensures freeblock == old(freeblock) + Used(|contents|)
    {
      assert Used(0) == 0;
      hide Raw, Exclusive, Abs, Base, Slot, Tight, ZeroTails, Appended, Used;
      ghost var f := Now();
      AppendedNothing(f, inum);
      var k := 0;
      assert contents[..0] == [];
      while k < |contents|
        invariant k <= |contents| && (k % BSIZE == 0 || k == |contents|)
        invariant Valid() && Appended(f, Now(), inum, contents[..k])
        invariant freeblock == old(freeblock) + Used(k)
      {
        k := CopyChunk(inum, contents, k, f);
      }
      assert contents[..k] == contents;
    }

    /** One read and one iappend. */
    method CopyChunk(inum: nat, contents: seq<Byte>, k: nat, ghost f: Fs) returns (k': nat)
      requires Valid() && inum < freeinode && inum < sb.ninodes && inum < |f.inodes| && f.inodes[inum].size == 0
      requires k < |contents| <= MAXFILE * BSIZE && k % BSIZE == 0 && Appended(f, Now(), inum, contents[..k])
      requires freeblock + Used(|contents|) <= sb.size + Used(k)
      modifies this`disk, this`freeblock
      ensures Valid() && k < k' <= |contents| && (k' % BSIZE == 0 || k' == |contents|)
      ensures Appended(f, Now(), inum, contents[..k'])
      ensures freeblock + Used(k) == old(freeblock) + Used(k')
    {
      hide Raw, Exclusive, Abs, Base, Slot, Tight, ZeroTails, Appended, Used;
      var cc := if |contents| - k < BSIZE then |contents| - k else BSIZE;
      ghost var g := Now();
      AppendedSize(f, g, inum, contents[..k]);
      UsedGrows(k + cc, |contents|);
      Iappend(inum, contents[k..k + cc]);
      AppendedTwice(f, g, Now(), inum, contents[..k], contents[k..k + cc]);
      k' := k + cc;
      assert contents[..k] + contents[k..k'] == contents[..k'];
    }

    /**
     main: the root directory, then every file in turn, then the directory's size and the bitmap.
     The image holds them if it has the blocks that they take, and no more are used.
     */
    method Build(files: seq<InputFile>)
      requires Valid() && freeinode == ROOTINO && freeblock == Meta(sb)
      requires |files| + 2 <= sb.ninodes <= 65536 && 16 * (|files| + 2) <= MAXFILE * BSIZE
      requires forall k :: 0 <= k < |files| ==> |files[k].contents| <= MAXFILE * BSIZE
      requires Meta(sb) + Needed(files) <= sb.size && Meta(sb) + Needed(files) < BPB
      modifies this`disk, this`freeblock, this`freeinode
      ensures GoodSb(sb, disk) && Good(Now()) && Holds(Now(), files)
      ensures freeblock == Meta(sb) + Needed(files)
      ensures forall b :: 0 <= b < sb.size ==> (Now().bits[b] <==> b < Meta(sb) + Needed(files))
    {
      hide Abs, Base, Good, Holds, Built, Valid, Needed;
      StartFits(files);
      StartRoot(files);
      for k := 0 to |files|
        invariant Built(files, k)
      {
        AddOne(files, k);
      }
      Finish(files);
    }

    method Finish(files: seq<InputFile>)
      requires |files| + 2 <= 65536 && 16 * (|files| + 2) <= MAXFILE * BSIZE && Built(files, |files|)
      requires Meta(sb) + Needed(files) <= sb.size && Meta(sb) + Needed(files) < BPB
      modifies this`disk
      ensures GoodSb(sb, disk) && Good(Now()) && Holds(Now(), files)
      ensures freeblock == Meta(sb) + Needed(files)
      ensures forall b :: 0 <= b < sb.size ==> (Now().bits[b] <==> b < Meta(sb) + Needed(files))
    {
      hide Raw, Exclusive, Abs, Base, Slot, Tight, Contents, Good, Mapped, MappedTo, PaddedEntries, Used, FileBlocks;
      assert files[..|files|] == files;
      ghost var f := Now();
      EntriesSize(f, files, |files|);
      FixRoot();
      ghost var g := Now();
      FixedContents(f, files, g);
      WriteBitmap();
      BitsKeepFiles(g, Now());
      forall k: nat | k < |files|
        ensures Contents(Now(), ROOTINO + 1 + k) == files[k].contents
      {
        assert Contents(f, ROOTINO + 1 + k) == files[k].contents;
      }
    }

    ghost predicate Built(files: seq<InputFile>, k: nat)
      reads this
    {
      && k <= |files| && Valid() && |files| + 2 <= sb.ninodes <= 65536 && freeinode == ROOTINO + 1 + k
      && freeblock == Meta(sb) + Needed(files[..k])
      && Contents(Now(), ROOTINO) == Entries(files[..k])
      && CopiedIn(Now(), files, k) && Typed(Now(), k)
    }

    method StartRoot(files: seq<InputFile>)
      requires Valid() && freeinode == ROOTINO && freeblock == Meta(sb) && Meta(sb) + Used(32) <= sb.size
      requires |files| + 2 <= sb.ninodes <= 65536
      modifies this`disk, this`freeblock, this`freeinode
      ensures Built(files, 0)
    {
      hide Raw, Exclusive, Abs, Base, Slot, Tight, ZeroTails, Appended, Contents, Dirent;
      ghost var f := Now();
      var root := Ialloc(T_DIR);
      FreshContents(f, root, T_DIR, root);
      ghost var f1 := Now();
      Iappend(root, Dirent(root, DOT));
      AppendedContents(f1, Now(), root, Dirent(root, DOT), root);
      AppendedSize(f1, Now(), root, Dirent(root, DOT));
      ghost var f2 := Now();
      Iappend(root, Dirent(root, DOTDOT));
      AppendedContents(f2, Now(), root, Dirent(root, DOTDOT), root);
      AppendedKinds(f1, f2, root, Dirent(root, DOT));
      AppendedKinds(f2, Now(), root, Dirent(root, DOTDOT));
    }

    method AddOne(files: seq<InputFile>, k: nat)
      requires k < |files| && Built(files, k) && |files| + 2 <= sb.ninodes <= 65536 && 16 * (|files| + 2) <= MAXFILE * BSIZE
      requires |files[k].contents| <= MAXFILE * BSIZE && Meta(sb) + Needed(files) <= sb.size
      modifies this`disk, this`freeblock, this`freeinode
      ensures Built(files, k + 1)
    {
      hide Raw, Exclusive, Abs, Base, Slot, Tight, ZeroTails, Appended, Contents, Dirent, Entries, Used, FileBlocks;
      EntriesSize(Now(), files, k);
      NeededNext(files, k);
      EntriesNext(files, k);
      ghost var f := Now();
      var inum := AddFile(files[k].name, files[k].contents);
      CopiedNext(f, Now(), files, k);
    }
  }

  /** Type and link count of an inode. */
  function Kind(n: Dinode): (Short, Short) {
    (n.typ, n.nlink)
  }

  /** The root is a directory, and the k inodes after it are files with one link. */
  ghost predicate Typed(f: Fs, k: nat) {
    forall j: nat :: ROOTINO <= j <= ROOTINO + k && j < |f.inodes| ==> Kind(f.inodes[j]) == (if j == ROOTINO then T_DIR else T_FILE, 1)
  }

  lemma AppendedKinds(f: Fs, g: Fs, i: nat, data: seq<Byte>)
    requires Appended(f, g, i, data)
    ensures |g.inodes| == |f.inodes| && forall j :: 0 <= j < |f.inodes| ==> Kind(g.inodes[j]) == Kind(f.inodes[j])
  {
  }

  /** The first k files' bytes are there. */
  ghost predicate CopiedIn(f: Fs, files: seq<InputFile>, k: nat) {
    k <= |files| && ROOTINO + 1 + k <= |f.inodes| && forall j: nat :: j < k ==> Contents(f, ROOTINO + 1 + j) == files[j].contents
  }

  lemma CopiedNext(f: Fs, g: Fs, files: seq<InputFile>, k: nat)
    requires CopiedIn(f, files, k) && k < |files| && |f.inodes| == |g.inodes| && ROOTINO + 1 + k < |g.inodes|
    requires Contents(g, ROOTINO + 1 + k) == files[k].contents
    requires forall j :: 0 <= j < |f.inodes| && j != ROOTINO + 1 + k && j != ROOTINO ==> Contents(g, j) == Contents(f, j)
    ensures CopiedIn(g, files, k + 1)
  {
    hide Contents;
    forall j: nat | j < k + 1
      ensures Contents(g, ROOTINO + 1 + j) == files[j].contents
    {
      assert j < k ==> Contents(f, ROOTINO + 1 + j) == files[j].contents;
    }
  }

  lemma EntriesNext(files: seq<InputFile>, k: nat)
    requires k < |files| && |files| + 2 <= 65536
    ensures Entries(files[..k + 1]) == Entries(files[..k]) + Dirent(ROOTINO + k + 1, files[k].name)
  {
    assert files[..k + 1][..k] == files[..k];
  }

  lemma TightMapped(f: Fs, g: Fs, i: nat)
    requires i < |f.inodes| && Tight(f, i) && SameSlots(f, g)
    ensures MappedTo(g, i, f.inodes[i].size)
  {
  }

  /**
   Every file's bytes and inode are there, and the root directory lists the files. Its blocks are those of
   the entries; the size, which is rounded up past them, may reach one block further.
   */
  ghost predicate Holds(f: Fs, files: seq<InputFile>) {
    && |files| + 2 <= |f.inodes| <= 65536 && Typed(f, |files|)
    && (forall k: nat :: k < |files| ==> Contents(f, ROOTINO + 1 + k) == files[k].contents)
    && Contents(f, ROOTINO) == PaddedEntries(files)
    && (Mapped(f, ROOTINO) <==> 16 * (|files| + 2) % BSIZE != 0) && MappedTo(f, ROOTINO, 16 * (|files| + 2))
  }

  datatype InputFile = InputFile(name: seq<Byte>, contents: seq<Byte>)

  const DOT: seq<Byte> := [46]
  const DOTDOT: seq<Byte> := [46, 46]

  /** The root directory's entries. */
  function Entries(files: seq<InputFile>): (d: seq<Byte>)
    requires |files| + 2 <= 65536
    ensures |d| == 16 * (|files| + 2)
  {
    if files == [] then Dirent(ROOTINO, DOT) + Dirent(ROOTINO, DOTDOT)
    else Entries(files[..|files| - 1]) + Dirent(ROOTINO + |files|, files[|files| - 1].name)
  }

  /** The entries, followed by the free entries that the fixed size takes in. */
  function PaddedEntries(files: seq<InputFile>): seq<Byte>
    requires |files| + 2 <= 65536
  {
    var n := |Entries(files)|;
    Entries(files) + seq<Byte>((n / BSIZE + 1) * BSIZE - n, _ => 0)
  }

  lemma {:induction false} BlocksPrefix(files: seq<InputFile>, k: nat)
    requires k <= |files|
    ensures FileBlocks(files[..k]) <= FileBlocks(files)
    decreases |files|
  {
    hide Used;
    var n := |files| - 1;
    if k <= n {
      assert files[..n][..k] == files[..k];
      BlocksPrefix(files[..n], k);
    } else {
      assert files[..k] == files;
    }
  }

  /** One more file takes its blocks, and what its entry adds to the root directory. */
  lemma NeededNext(files: seq<InputFile>, k: nat)
    requires k < |files|
    ensures Needed(files[..k + 1]) + Used(16 * (k + 2)) == Needed(files[..k]) + Used(16 * (k + 2) + 16) + Used(|files[k].contents|)
    ensures Needed(files[..k + 1]) <= Needed(files)
  {
    hide Used;
    assert files[..k + 1][..k] == files[..k];
    BlocksPrefix(files, k + 1);
    UsedGrows(16 * (k + 3), 16 * (|files| + 2));
  }

  lemma StartFits(files: seq<InputFile>)
    ensures Used(32) <= Needed(files)
  {
    UsedGrows(32, 16 * (|files| + 2));
  }

  lemma EntriesSize(f: Fs, files: seq<InputFile>, k: nat)
    requires ROOTINO < |f.inodes| && k <= |files| && |files| + 2 <= 65536 && Contents(f, ROOTINO) == Entries(files[..k])
    ensures f.inodes[ROOTINO].size == 16 * (k + 2)
  {
    assert |Contents(f, ROOTINO)| == f.inodes[ROOTINO].size;
  }

  lemma FixedContents(f: Fs, files: seq<InputFile>, g: Fs)
    requires ROOTINO < |f.inodes| && |files| + 2 <= 65536 && ZeroTails(f)
    requires Contents(f, ROOTINO) == Entries(files[..|files|])
    requires (f.inodes[ROOTINO].size / BSIZE + 1) * BSIZE < TWO32
    requires g == SetSize(f, ROOTINO, (f.inodes[ROOTINO].size / BSIZE + 1) * BSIZE)
    ensures Contents(g, ROOTINO) == PaddedEntries(files)
    ensures forall j: nat :: j < |f.inodes| && j != ROOTINO ==> Contents(g, j) == Contents(f, j)
  {
    assert files[..|files|] == files;
    SetSizeKeeps(f, ROOTINO, (f.inodes[ROOTINO].size / BSIZE + 1) * BSIZE);
    var c, e := Contents(g, ROOTINO), PaddedEntries(files);
    assert |Contents(f, ROOTINO)| == f.inodes[ROOTINO].size == |Entries(files)|;
    forall p | 0 <= p < |c|
      ensures c[p] == e[p]
    {
      assert Raw(g, ROOTINO, p) == Raw(f, ROOTINO, p);
      if p < f.inodes[ROOTINO].size {
        assert Contents(f, ROOTINO)[p] == Raw(f, ROOTINO, p);
      }
    }
    forall j: nat | j < |f.inodes| && j != ROOTINO
      ensures Contents(g, j) == Contents(f, j)
    {
      assert forall p: nat :: Raw(g, j, p) == Raw(f, j, p);
    }
  }

  lemma BitsKeepFiles(f: Fs, g: Fs)
    requires g == f.(bits := g.bits)
    ensures forall j: nat :: j < |f.inodes| ==> Contents(g, j) == Contents(f, j) && (Mapped(g, j) <==> Mapped(f, j))
    ensures forall j: nat, size: nat :: MappedTo(f, j, size) ==> MappedTo(g, j, size)
  {
    assert forall j: nat, t: nat :: Slot(g, j, t) == Slot(f, j, t);
    assert forall j: nat, p: nat :: Raw(g, j, p) == Raw(f, j, p);
  }

  /** struct dirent: inode number and the name, cut or padded with NULs to DIRSIZ bytes. */
  function Dirent(inum: nat, name: seq<Byte>): (d: seq<Byte>)
    requires inum < 65536
    ensures |d| == 2 + DIRSIZ
  {
    [inum % 256, inum / 256] + (if |name| >= DIRSIZ then name[..DIRSIZ] else name + seq<Byte>(DIRSIZ - |name|, _ => 0))
  }

  lemma AppendedOther(f: Fs, g: Fs, i: nat, data: seq<Byte>, j: nat)
    requires Appended(f, g, i, data) && j != i && j < |f.inodes|
    ensures j < |g.inodes| && g.inodes[j] == f.inodes[j]
  {
  }

  lemma AppendedContents(f: Fs, g: Fs, i: nat, data: seq<Byte>, j: nat)
    requires Appended(f, g, i, data) && j < |f.inodes|
    ensures j < |g.inodes| && i < |f.inodes|
    ensures Contents(g, j) == if j == i then Contents(f, i) + data else Contents(f, j)
  {
    hide Raw, Slot;
    OverlayContents(f, g, i, f.inodes[i].size, data, j);
    assert Patched(Contents(f, i), f.inodes[i].size, data) == Contents(f, i) + data;
  }

  lemma AppendedTwice(f: Fs, g: Fs, h: Fs, i: nat, a: seq<Byte>, b: seq<Byte>)
    requires Appended(f, g, i, a) && Appended(g, h, i, b)
    ensures Appended(f, h, i, a + b)
  {
    forall j: nat, p: nat
      ensures Raw(h, j, p) == if j == i && f.inodes[i].size <= p < f.inodes[i].size + |a + b|
                              then (a + b)[p - f.inodes[i].size] else Raw(f, j, p)
    {
      assert Raw(g, j, p) == if j == i && f.inodes[i].size <= p < f.inodes[i].size + |a|
                             then a[p - f.inodes[i].size] else Raw(f, j, p);
    }
    forall j: nat, t: nat | j != i
      ensures Slot(h, j, t) == Slot(f, j, t)
    {
      assert Slot(g, j, t) == Slot(f, j, t);
    }
  }

  lemma FreshContents(f: Fs, i: nat, typ: Short, j: nat)
    requires i < |f.inodes| && j < |f.inodes|
    ensures var g := f.(inodes := f.inodes[i := NewInode(typ)]);
            Contents(g, j) == if j == i then [] else Contents(f, j)
  {
    var g := f.(inodes := f.inodes[i := NewInode(typ)]);
    if j != i {
      assert forall p: nat :: Raw(g, j, p) == Raw(f, j, p);
    }
  }

  function NewInode(typ: Short): Dinode {
    Dinode(typ, 0, 0, 1, 0, seq(NDIRECT + 1, _ => 0))
  }

  lemma BaseShape(f: Fs, freeblock: nat, freeinode: nat)
    requires Base(f, freeblock, freeinode)
    ensures Shape(f)
  {
  }

  /** Setting up an inode that names no block yet. */
  lemma FreshInode(f: Fs, freeblock: nat, freeinode: nat, typ: Short)
    requires Base(f, freeblock, freeinode) && freeinode < |f.inodes|
    requires ZeroTails(f) && forall i: nat :: i < |f.inodes| ==> Tight(f, i)
    ensures var g := f.(inodes := f.inodes[freeinode := NewInode(typ)]);
            Base(g, freeblock, freeinode + 1) && ZeroTails(g) && forall i: nat :: i < |g.inodes| ==> Tight(g, i)
  {
    var g := f.(inodes := f.inodes[freeinode := NewInode(typ)]);
    assert forall j: nat, t: nat :: Slot(g, j, t) == Slot(f, j, t);
    SameSlotsBase(f, g, freeblock, freeinode);
    forall j: nat, p: nat | j < |g.inodes| && p >= g.inodes[j].size
      ensures Raw(g, j, p) == 0
    {
      assert j != freeinode ==> Raw(f, j, p) == 0;
      assert Slot(g, j, SlotOf(p / BSIZE)) == Slot(f, j, SlotOf(p / BSIZE));
    }
    forall i: nat | i < |g.inodes|
      ensures Tight(g, i)
    {
      assert Tight(f, i);
    }
  }

  lemma BitsOnly(f: Fs, g: Fs, freeblock: nat, freeinode: nat)
    requires Base(f, freeblock, freeinode) && g == f.(bits := g.bits) && |g.bits| == |f.bits|
    ensures Base(g, freeblock, freeinode)
  {
    assert forall j: nat, t: nat :: Slot(g, j, t) == Slot(f, j, t);
    SameSlotsExclusive(f, g);
    forall b: nat
      ensures Owns(g, b) <==> g.meta <= b < freeblock
    {
      assert b in Owned(g) <==> b in Owned(f);
    }
  }

  lemma ZeroBits()
    ensures forall c :: 0 <= c < BPB ==> !BitOf(ZeroBlock()[c / 8], c % 8)
  {
    forall c | 0 <= c < BPB
      ensures !BitOf(ZeroBlock()[c / 8], c % 8)
    {
      NoBits(c % 8);
    }
  }

  lemma {:induction false} NoBits(k: nat)
    ensures !BitOf(0, k)
  {
    if k > 0 {
      NoBits(k - 1);
    }
  }

  /** Replacing the one bitmap block. */
  lemma PutBitmapAbs(sb: Superblock, d: Disk, buf: Block)
    requires GoodSb(sb, d)
    ensures sb.bmapstart < |d|
    ensures var e := d[sb.bmapstart := buf];
            && Abs(sb, e) == Abs(sb, d).(bits := Abs(sb, e).bits)
            && forall b :: 0 <= b < sb.size ==>
                 (Abs(sb, e).bits[b] <==> if b < BPB then BitOf(buf[b / 8], b % 8) else Abs(sb, d).bits[b])
  {
    hide BitOf, InodeAt, BitAt;
    var e := d[sb.bmapstart := buf];
    forall b | 0 <= b < sb.size
      ensures Abs(sb, e).bits[b] <==> if b < BPB then BitOf(buf[b / 8], b % 8) else Abs(sb, d).bits[b]
    {
      BitmapBits(sb, d, buf, b);
    }
    forall i | 0 <= i < sb.ninodes
      ensures Abs(sb, e).inodes[i] == Abs(sb, d).inodes[i]
    {
      InodesBelowBitmap(sb, d, i);
      InodeAtSame(sb, d, e, i);
    }
    assert Abs(sb, e).inodes == Abs(sb, d).inodes;
    assert Abs(sb, e).blocks == Abs(sb, d).blocks;
  }

  lemma BitmapBits(sb: Superblock, d: Disk, buf: Block, b: nat)
    requires GoodSb(sb, d) && b < sb.size && sb.bmapstart < |d|
    ensures Abs(sb, d[sb.bmapstart := buf]).bits[b] <==> if b < BPB then BitOf(buf[b / 8], b % 8) else Abs(sb, d).bits[b]
  {
    hide BitOf, InodeAt, Abs;
    BitsAre(sb, d[sb.bmapstart := buf], b);
    BitsAre(sb, d, b);
    FirstBitmap(sb, b);
  }

  lemma FirstBitmap(sb: Superblock, b: nat)
    ensures b < BPB ==> BBLOCK(b, sb) == sb.bmapstart && b % BPB == b
    ensures b >= BPB ==> BBLOCK(b, sb) > sb.bmapstart
  {
  }

  /** iappend's share of one block. */
  lemma ChunkSize(off: nat, n: nat, m: int)
    requires 0 < n && m == if n < (off / BSIZE + 1) * BSIZE - off then n else (off / BSIZE + 1) * BSIZE - off
    ensures 0 < m <= n && off % BSIZE + m <= BSIZE
  {
    assert (off / BSIZE + 1) * BSIZE - off == BSIZE - off % BSIZE;
  }

  lemma AppendedSize(f: Fs, g: Fs, i: nat, data: seq<Byte>)
    requires Appended(f, g, i, data)
    ensures i < |f.inodes| && i < |g.inodes| && g.inodes[i].size == f.inodes[i].size + |data| && Tight(g, i)
  {
  }

  lemma AppendedNothing(f: Fs, i: nat)
    requires i < |f.inodes| && Tight(f, i) && f.inodes[i].size <= MAXFILE * BSIZE
    ensures Appended(f, f, i, [])
  {
  }

  lemma AppendedTight(f: Fs, g: Fs, i: nat, data: seq<Byte>)
    requires Appended(f, g, i, data) && ZeroTails(f) && forall j: nat :: j < |f.inodes| ==> Tight(f, j)
    ensures ZeroTails(g) && forall j: nat :: j < |g.inodes| ==> Tight(g, j)
  {
    forall j: nat, p: nat | j < |g.inodes| && p >= g.inodes[j].size
      ensures Raw(g, j, p) == 0
    {
      assert Raw(f, j, p) == 0;
    }
    forall j: nat | j < |g.inodes|
      ensures Tight(g, j)
    {
      if j != i {
        assert Tight(f, j);
        assert forall bn: nat :: Slot(g, j, SlotOf(bn)) == Slot(f, j, SlotOf(bn));
      }
    }
  }

  ghost predicate MapsSlot(f: Fs, g: Fs, i: nat, s: nat) {
    && SameRaw(f, g) && Slot(g, i, s) != 0
    && forall j: nat, t: nat :: Slot(g, j, t) == Slot(f, j, t) || (j == i && t == s)
  }

  lemma SameRawTransitive(f: Fs, g: Fs, h: Fs)
    requires SameRaw(f, g) && SameRaw(g, h)
    ensures SameRaw(f, h)
  {
    forall j: nat, p: nat
      ensures Raw(h, j, p) == Raw(f, j, p)
    {
      assert Raw(g, j, p) == Raw(f, j, p);
    }
  }

  lemma BaseSlot(f: Fs, freeblock: nat, freeinode: nat, i: nat, t: nat)
    requires Base(f, freeblock, freeinode) && Slot(f, i, t) != 0
    ensures IsData(f, Slot(f, i, t))
  {
    assert Owns(f, Slot(f, i, t));
  }

  lemma BlankImage(sb: Superblock, d: Disk)
    requires GoodSb(sb, d) && forall b :: 0 <= b < |d| ==> d[b] == ZeroBlock()
    ensures var f := Abs(sb, d);
            && Base(f, Meta(sb), 1) && ZeroTails(f)
            && forall i: nat :: i < |f.inodes| ==> f.inodes[i].size == 0 && Tight(f, i)
  {
    hide InodeAt, BitAt, WordAt;
    var f := Abs(sb, d);
    forall i: nat | i < sb.ninodes
      ensures f.inodes[i] == Dinode(0, 0, 0, 0, 0, seq(NDIRECT + 1, _ => 0))
    {
      BlankInode(sb, d, i);
    }
    assert forall i: nat, s: nat :: Slot(f, i, s) == 0;
  }

  lemma BlankBits(sb: Superblock, d: Disk)
    requires GoodSb(sb, d) && forall b :: 0 <= b < |d| ==> d[b] == ZeroBlock()
    ensures Blank(Abs(sb, d).bits)
  {
    hide Abs, BitOf;
    ZeroBits();
    forall b: nat | b < sb.size
      ensures !Abs(sb, d).bits[b]
    {
      BitsAre(sb, d, b);
      BitmapAboveInodes(sb, d, b);
      assert 0 <= b % BPB < BPB;
    }
  }

  lemma BlankInode(sb: Superblock, d: Disk, i: nat)
    requires GoodSb(sb, d) && i < sb.ninodes && forall b :: 0 <= b < |d| ==> d[b] == ZeroBlock()
    ensures Abs(sb, d).inodes[i] == Dinode(0, 0, 0, 0, 0, seq(NDIRECT + 1, _ => 0))
  {
    InodesBelowBitmap(sb, d, i);
    var ws := WordsAt(ZeroBlock(), i % IPB * 16);
    forall k | 0 <= k < 16
      ensures ws[k] == 0
    {
      ZeroWord(i % IPB * 16 + k);
    }
    assert ws[3..] == seq(NDIRECT + 1, _ => 0);
  }
}
