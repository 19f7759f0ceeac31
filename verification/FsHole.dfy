/**
 The hole at the end of the root directory (mkfs.c:158-163): mkfs moves the directory's size past
 the next block boundary, so that a directory whose entries fill their blocks ends in a block that
 is not there. What writing and reading in it do (fs.c:356-384, 434-492, file.c:106).
 */
module FsHole {
  import opened Blocks
  import opened FsModel
  import opened FsImage
  import opened FileSystem
  import opened Mkfs
  import FsCrash

  /** Where the root directory's entries end. */
  function EntriesEnd(files: nat): nat {
    16 * (files + 2)
  }

  /** The entries fill their blocks, and the next one is direct or the first of the indirect ones. */
  predicate Full(files: nat) {
    EntriesEnd(files) % BSIZE == 0 && EntriesEnd(files) <= NDIRECT * BSIZE
  }

  /** An image whose entries fill their blocks: the directory goes on for a block that has no address. */
  lemma RootHole(f: Fs, files: seq<InputFile>, n: nat)
    requires Holds(f, files) && Full(|files|) && 0 < n <= BSIZE
    ensures var e := EntriesEnd(|files|);
            && f.inodes[ROOTINO].size == e + BSIZE && !Mapped(f, ROOTINO)
            && !MappedRange(f, ROOTINO, e, e + n) && !Addressed(f, ROOTINO, e, e + n)
  {
    hide Raw;
    var e := EntriesEnd(|files|);
    assert |Contents(f, ROOTINO)| == |PaddedEntries(files)|;
    assert e / BSIZE * BSIZE == e;
    assert Slot(f, ROOTINO, SlotOf(e / BSIZE)) == 0;
    assert AddrOf(f, ROOTINO, e / BSIZE) == 0;
  }

  /** What mapping the hole takes: a block, and the indirect block if it comes to that. */
  lemma HoleCost(f: Fs, files: seq<InputFile>, n: nat)
    requires Holds(f, files) && Full(|files|) && 0 < n <= BSIZE
    ensures var e := EntriesEnd(|files|);
            Missing(f, ROOTINO, e, e + n) == if e / BSIZE < NDIRECT then 1 else 2
  {
    hide Raw, Contents;
    var e := EntriesEnd(|files|);
    assert e / BSIZE * BSIZE == e && (e + n - 1) / BSIZE == e / BSIZE;
    assert Slot(f, ROOTINO, SlotOf(e / BSIZE)) == 0;
    assert Holes(f, ROOTINO, e / BSIZE + 1, e / BSIZE + 1) == 0;
  }

  /** A write into the hole, with blocks for it, leaves a file system in which a marked block belongs to no file. */
  method WriteInHole(v: Volume, ip: Inode, src: seq<Byte>, off: Word, ghost files: seq<InputFile>, ghost i: nat) returns (r: Io)
    requires v.Valid(ip) && v.Agrees(ip) && v.log == [] && ip.inum == ROOTINO && ip.typ != T_DEV
    requires Holds(v.OnDisk(), files) && Full(|files|) && off == EntriesEnd(|files|) && 0 < |src| <= BSIZE && Free(v.OnDisk()) >= 2
    modifies v, ip
    ensures v.Valid(ip) && r == Done(|src|) && !Good(v.OnDisk())
  {
    hide Abs, Good, GoodSb, Holds, Contents, Addressed, Mapped, Missing, Clear;
    RootHole(v.OnDisk(), files, |src|);
    HoleCost(v.OnDisk(), files, |src|);
    assert v.With(ip) == v.OnDisk();
    r := FsCrash.WriteOperation(v, ip, src, off, i);
  }

  /** A read there allocates the block through log_write, which panics outside a transaction. */
  method ReadInHole(v: Volume, ip: Inode, off: Word, n: Word, ghost files: seq<InputFile>) returns (r: Io, dst: seq<Byte>)
    requires v.Valid(ip) && v.Agrees(ip) && ip.inum == ROOTINO && ip.typ != T_DEV
    requires Holds(v.OnDisk(), files) && Full(|files|) && off == EntriesEnd(|files|) && 0 < n <= BSIZE && Free(v.OnDisk()) >= 2
    modifies v, ip`addrs
    ensures v.Valid(ip) && r == Done(n) && dst == seq(n, _ => 0) && old(v.log) < v.log
  {
    hide Abs, Good, GoodSb, Holds, Contents, MappedRange, Mapped, Missing, Clear, Extends;
    RootHole(v.OnDisk(), files, n);
    HoleCost(v.OnDisk(), files, n);
    HoleReads(v.OnDisk(), files, n);
    assert v.With(ip) == v.OnDisk();
    r, dst := v.Readi(ip, off, n);
  }

  lemma HoleReads(f: Fs, files: seq<InputFile>, n: nat)
    requires Holds(f, files) && Full(|files|) && 0 < n <= BSIZE
    ensures var e := EntriesEnd(|files|); |Contents(f, ROOTINO)| >= e + n && Contents(f, ROOTINO)[e..e + n] == seq(n, _ => 0)
  {
    hide Contents;
    var e := EntriesEnd(|files|);
    assert |Entries(files)| == e;
    assert PaddedEntries(files)[e..e + n] == seq(n, _ => 0);
  }

  // ------------------------------------------------------ thirty input files

  function EmptyFiles(n: nat): seq<InputFile> {
    seq(n, k => InputFile([102], []))
  }

  lemma {:induction false} EmptyFilesTakeNothing(n: nat)
    ensures FileBlocks(EmptyFiles(n)) == 0
  {
    if n > 0 {
      EmptyFilesTakeNothing(n - 1);
      assert EmptyFiles(n)[..n - 1] == EmptyFiles(n - 1);
    }
  }

  /** FSSIZE blocks, 200 inodes and LOGSIZE log blocks, as mkfs lays them out. */
  const SB: Superblock := Superblock(1000, 200, 32, 58)

  /** mkfs with thirty input files. */
  method MakeImage() returns (img: Image)
    ensures fresh(img) && img.sb == SB && GoodSb(SB, img.disk) && Good(img.Now()) && Holds(img.Now(), EmptyFiles(30))
    ensures Free(img.Now()) >= 2
  {
    hide Abs, Good, Holds, Needed, Clear, Image.Valid;
    img := new Image(SB);
    ThirtyNeed();
    var files := EmptyFiles(30);
    assert forall k :: 0 <= k < |files| ==> files[k].contents == [];
    img.Build(files);
    TwoFree(img.Now().bits, 60);
  }

  lemma ThirtyNeed()
    ensures Needed(EmptyFiles(30)) == 1 && Meta(SB) == 59
  {
    EmptyFilesTakeNothing(30);
  }

  lemma TwoFree(bits: seq<bool>, n: nat)
    requires n + 1 < |bits| && !bits[n] && !bits[n + 1]
    ensures Clear(bits) >= 2
  {
    hide Clear;
    ClearSet(bits, n);
    NoneClear(bits[n := true]);
    assert !bits[n := true][n + 1];
  }

  /** The image, mounted, and its root directory's inode. */
  method Mount() returns (v: Volume, ip: Inode)
    ensures fresh(v) && fresh(ip) && v.Valid(ip) && v.Agrees(ip) && v.log == [] && ip.inum == ROOTINO && ip.typ == T_DIR
    ensures Holds(v.OnDisk(), EmptyFiles(30)) && Free(v.OnDisk()) >= 2
  {
    hide Abs, Good, Clear, Contents, PaddedEntries, Mapped, MappedTo;
    var img := MakeImage();
    v := new Volume(SB, map[], img.disk);
    InodesAre(SB, img.disk, ROOTINO);
    ip := new Inode(ROOTINO, InodeAt(SB, img.disk, ROOTINO));
    assert v.With(ip) == v.OnDisk();
    assert Kind(v.OnDisk().inodes[ROOTINO]) == (T_DIR, 1);
  }

  /** A write of 16 bytes at 512, which is what adding one directory entry there is, and a read of them. */
  method HoleExample() returns (w: Volume, v: Volume, ip: Inode, r: Io)
    ensures fresh(w) && GoodSb(w.sb, w.disk) && r == Done(16) && !Good(w.OnDisk())
    ensures fresh(v) && v.Valid(ip) && |v.log| > 0
  {
    hide Abs, Good, Clear, Holds;
    ghost var files := EmptyFiles(30);
    var jp;
    w, jp := Mount();
    r := WriteInHole(w, jp, seq(16, _ => 1), 512, files, 0);
    v, ip := Mount();
    var d, dst := ReadInHole(v, ip, 512, 16, files);
  }
}
