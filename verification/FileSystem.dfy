/**
 Blocks and inode contents as fs.c works on them: the logical disk that bread shows and
 log_write updates, and in-memory inodes changed in place. `None` stands for a panic.
 */
module FileSystem {
  import opened Basics
  import opened Blocks
  import opened FsModel
  import opened FsImage
  import opened FsSteps

  const T_DEV: Short := 3
  const NDEV: nat := 10

  /**
   Result of readi and writei: a byte count, -1, a panic of balloc for want of blocks, or of bmap for a
   block that no file can have, or whatever the device's function returns.
   */
  datatype Io = Done(n: nat) | Failed | OutOfBlocks | OutOfRange | Handed(major: Short)

  /** An entry of devsw: which of the two functions there are. */
  datatype Device = Device(read: bool, write: bool)

  /** There is a function for the device. A negative major number is at least 2^15 here. */
  predicate Handles(devsw: map<Short, Device>, major: Short, write: bool) {
    major < NDEV && major in devsw && if write then devsw[major].write else devsw[major].read
  }

  ghost function Apply(d: Disk, us: seq<Update>): (e: Disk)
    ensures |e| == |d|
  {
    if us == [] then d
    else
      var p := Apply(d, us[..|us| - 1]);
      var u := us[|us| - 1];
      if u.bno < |d| then p[u.bno := u.data] else p
  }

  lemma ApplySnoc(d: Disk, us: seq<Update>, u: Update)
    requires u.bno < |d|
    ensures Apply(d, us + [u]) == Apply(d, us)[u.bno := u.data]
  {
    assert (us + [u])[..|us|] == us;
  }

  /** The log has grown by calls for these blocks. */
  ghost predicate Adds(was: seq<Update>, log: seq<Update>, blocks: set<nat>) {
    was <= log && forall k :: |was| <= k < |log| ==> log[k].bno in blocks
  }

  /** The bitmap blocks. */
  ghost function Bitmap(sb: Superblock): set<nat> {
    set b: nat | b < Meta(sb) && IsBitmap(sb, b)
  }

  predicate IsBitmap(sb: Superblock, b: nat) {
    sb.bmapstart <= b < Meta(sb)
  }

  /** Block bn of a file holds some of the bytes from off to to. */
  predicate Spans(off: nat, to: nat, bn: nat) {
    off < to && off / BSIZE <= bn <= (to - 1) / BSIZE
  }

  /** The blocks of the file that hold those bytes, and its indirect block. */
  ghost function BlocksOf(f: Fs, i: nat, off: nat, to: nat): set<nat> {
    (set bn: nat | bn <= to / BSIZE && Spans(off, to, bn) :: Slot(f, i, SlotOf(bn))) + {Slot(f, i, NDIRECT)}
  }

  /** One of the calls since `was` is for block b. */
  ghost predicate Called(was: seq<Update>, log: seq<Update>, b: nat) {
    exists k :: |was| <= k < |log| && log[k].bno == b
  }

  /** Every block of the file that holds some of those bytes has been logged. */
  ghost predicate Covers(was: seq<Update>, log: seq<Update>, f: Fs, i: nat, off: nat, to: nat) {
    forall bn: nat :: Spans(off, to, bn) ==> Called(was, log, Slot(f, i, SlotOf(bn)))
  }

  /** More bytes, and slots that stay: the blocks stay among them. */
  lemma BlocksStay(f: Fs, g: Fs, i: nat, off: nat, to: nat, more: nat, b: nat)
    requires forall t: nat :: Slot(f, i, t) != 0 ==> Slot(g, i, t) == Slot(f, i, t)
    requires b in BlocksOf(f, i, off, to) && b != 0 && to <= more
    ensures b in BlocksOf(g, i, off, more)
  {
    hide Slot;
    if b != Slot(f, i, NDIRECT) {
      var bn: nat :| bn <= to / BSIZE && Spans(off, to, bn) && b == Slot(f, i, SlotOf(bn));
      assert bn <= more / BSIZE && Spans(off, more, bn);
    }
  }

  /** balloc has taken block b. */
  ghost predicate Took(sb: Superblock, d: Disk, log: seq<Update>, d': Disk, log': seq<Update>, b: nat) {
    BBLOCK(b, sb) < |d| && b < |d| && d' == Taken(sb, d, b) && log' == log + Taking(sb, d, b)
  }

  /** How far of that there can be blocks in a file. */
  function Limit(to: nat): nat {
    if to <= MAXFILE * BSIZE then to else MAXFILE * BSIZE
  }

  class Inode {
    const inum: nat
    var typ: Short
    var major: Short
    var minor: Short
    var nlink: Short
    var size: Word
    var addrs: Addrs

    constructor (inum: nat, n: Dinode)
      ensures this.inum == inum && Value() == n
    {
      this.inum := inum;
      typ, major, minor, nlink, size, addrs := n.typ, n.major, n.minor, n.nlink, n.size, n.addrs;
    }

    function Value(): Dinode
      reads this
    {
      Dinode(typ, major, minor, nlink, size, addrs)
    }
  }

  class Volume {
    const sb: Superblock
    const devsw: map<Short, Device>
    var disk: Disk
    ghost const start: Disk      // the disk at first
    ghost var log: seq<Update>   // the calls of log_write since

    constructor (sb: Superblock, devsw: map<Short, Device>, disk: Disk)
      ensures this.sb == sb && this.devsw == devsw && this.disk == start == disk && log == [] && Logged()
    {
      this.sb := sb;
      this.devsw := devsw;
      this.disk := disk;
      start, log := disk, [];
    }

    /** Every change to the disk has been logged, and none of them is to the log. */
    ghost predicate Logged()
      reads this
    {
      disk == Apply(start, log) && forall k :: 0 <= k < |log| ==> sb.inodestart <= log[k].bno < |start|
    }

    /** A changed buffer and log_write. */
    method LogWrite(b: nat, data: Block)
      requires Logged() && sb.inodestart <= b < |disk|
      modifies this
      ensures Logged() && disk == old(disk)[b := data] && log == old(log) + [Update(b, data)]
    {
      ApplySnoc(start, log, Update(b, data));
      disk := disk[b := data];
      log := log + [Update(b, data)];
    }

    /** The file system on disk. */
    ghost function OnDisk(): Fs
      reads this
      requires GoodSb(sb, disk)
    {
      Abs(sb, disk)
    }

    /** The file system with the in-memory inode in place of its disk copy. */
    ghost function With(ip: Inode): (f: Fs)
      reads this, ip
      requires GoodSb(sb, disk) && ip.inum < sb.ninodes
    {
      OnDisk().(inodes := OnDisk().inodes[ip.inum := ip.Value()])
    }

    ghost predicate Valid(ip: Inode)
      reads this, ip
    {
      GoodSb(sb, disk) && ip.inum < sb.ninodes && Good(With(ip)) && Logged()
    }

    /** The end of balloc: mark the block and zero it. */
    method Take(b: nat)
      requires GoodSb(sb, disk) && Logged() && Meta(sb) <= b < sb.size
      modifies this
      ensures GoodSb(sb, disk) && Logged() && |log| > |old(log)| && OnDisk() == Allocate(old(OnDisk()), b)
      ensures Adds(old(log), log, Bitmap(sb) + {b}) && Took(sb, old(disk), old(log), disk, log, b)
    {
      hide Abs, PutBit, Apply;
      BitmapHas(sb, b);
      PutBitAbs(sb, disk, b, true);
      BitmapAboveInodes(sb, disk, b);
      LogWrite(BBLOCK(b, sb), PutBit(disk[BBLOCK(b, sb)], b, true));
      PutBlockAbs(sb, disk, b, ZeroBlock());
      LogWrite(b, ZeroBlock());
    }

    /** balloc: the first free block, marked and zeroed. */
    method Balloc() returns (r: Option<nat>)
      requires GoodSb(sb, disk) && Logged()
      requires forall c: nat :: c < Meta(sb) ==> OnDisk().bits[c]
      modifies this
      ensures GoodSb(sb, disk) && Logged() && Adds(old(log), log, if r.Some? then Bitmap(sb) + {r.value} else {})
      ensures r.None? ==> disk == old(disk) && log == old(log) && forall c: nat :: c < sb.size ==> OnDisk().bits[c]
      ensures r.Some? ==> && r.value < sb.size && !old(OnDisk()).bits[r.value] && |log| > |old(log)|
                          && (forall c: nat :: c < r.value ==> old(OnDisk()).bits[c])
                          && Took(sb, old(disk), old(log), disk, log, r.value)
                          && OnDisk() == Allocate(old(OnDisk()), r.value)
    {
      hide Abs, PutBit, BitOf, Apply, GoodSb, Allocate, Took;
      var b := 0;
      while b < sb.size
        invariant b % BPB == 0 && disk == old(disk) && log == old(log)
        invariant forall c: nat :: c < b && c < sb.size ==> OnDisk().bits[c]
        decreases sb.size - b
      {
        BitmapAboveInodes(sb, disk, b);
        var bi := FindClear(b);
        if bi < BPB && b + bi < sb.size {
          assert OnDisk() == old(OnDisk()) && !OnDisk().bits[b + bi];
          Take(b + bi);
          return Some(b + bi);
        }
        b := b + BPB;
      }
      return None;
    }

    /** balloc's inner loop: the first clear bit of the bitmap block for b, or where it ends. */
    method FindClear(b: nat) returns (bi: nat)
      requires GoodSb(sb, disk) && b % BPB == 0 && b < sb.size
      ensures bi <= BPB
      ensures forall c: nat :: b <= c < b + bi && c < sb.size ==> OnDisk().bits[c]
      ensures bi < BPB && b + bi < sb.size ==> !OnDisk().bits[b + bi]
      ensures bi == BPB || b + bi >= sb.size || !OnDisk().bits[b + bi]
    {
      hide Abs, BitOf, GoodSb;
      BitmapAboveInodes(sb, disk, b);
      BitsAre(sb, disk, b);
      var blk := disk[BBLOCK(b, sb)];
      bi := 0;
      while bi < BPB && b + bi < sb.size
        invariant bi <= BPB
        invariant forall c: nat :: b <= c < b + bi && c < sb.size ==> OnDisk().bits[c]
      {
        BitmapIndex(b, bi);
        BitsAre(sb, disk, b + bi);
        if !BitOf(blk[bi / 8], bi % 8) {
          return;
        }
        bi := bi + 1;
      }
    }

    /** bfree, for a block whose bit is set. */
    method Bfree(b: nat)
      requires GoodSb(sb, disk) && Logged() && b < sb.size && OnDisk().bits[b]
      modifies this
      ensures GoodSb(sb, disk) && Logged() && OnDisk() == old(OnDisk()).(bits := old(OnDisk()).bits[b := false])
      ensures Adds(old(log), log, Bitmap(sb))
    {
      hide Apply;
      BitmapHas(sb, b);
      PutBitAbs(sb, disk, b, false);
      BitmapAboveInodes(sb, disk, b);
      LogWrite(BBLOCK(b, sb), PutBit(disk[BBLOCK(b, sb)], b, false));
    }

    /** iupdate: the in-memory inode becomes the disk copy. */
    method Iupdate(ip: Inode)
      requires GoodSb(sb, disk) && Logged() && ip.inum < sb.ninodes
      modifies this
      ensures GoodSb(sb, disk) && Logged() && OnDisk() == old(With(ip)) == With(ip)
      ensures |log| == |old(log)| + 1 && Adds(old(log), log, {IBLOCK(ip.inum, sb)})
      ensures var b := IBLOCK(ip.inum, sb);
              && b < |old(disk)| && log[|old(log)|] == Update(b, PutInode(old(disk)[b], ip.inum, ip.Value()))
              && disk == old(disk)[b := log[|old(log)|].data]
    {
      hide Apply;
      PutInodeAbs(sb, disk, ip.inum, ip.Value());
      LogWrite(IBLOCK(ip.inum, sb), PutInode(disk[IBLOCK(ip.inum, sb)], ip.inum, ip.Value()));
      assert With(ip) == OnDisk();
    }

    /** The address in slot s of ip (direct, or of the indirect block), allocated if absent. */
    method EnsureAddr(ip: Inode, s: nat, ghost bn: nat) returns (r: Option<nat>)
      requires Valid(ip) && s == (if bn < NDIRECT then bn else NDIRECT)
      modifies this, ip`addrs
      ensures Valid(ip) && Extends(old(With(ip)), With(ip), ip.inum) && OnDisk().inodes == old(OnDisk()).inodes
      ensures old(ip.addrs[s]) != 0 || r.None? ==> disk == old(disk) && log == old(log) && ip.addrs == old(ip.addrs)
      ensures old(ip.addrs[s]) != 0 ==> r.Some?
      ensures Adds(old(log), log, Bitmap(sb) + {ip.addrs[s]}) && (r.Some? && old(ip.addrs[s]) == 0 ==> |log| > |old(log)|)
      ensures r.Some? ==> r.value == ip.addrs[s] != 0
      ensures r.Some? ==>
                Finds(sb, old(disk), old(With(ip)).inodes, disk, With(ip).inodes, log[|old(log)|..], ip.inum, bn)
      ensures r.Some? ==> SlotsWith(old(With(ip)), With(ip), ip.inum, s, r.value)
      ensures r.Some? ==> Free(With(ip)) + (if old(ip.addrs[s]) == 0 then 1 else 0) == Free(old(With(ip)))
      ensures r.None? ==> Free(old(With(ip))) == 0 && forall c: nat :: c < sb.size ==> With(ip).bits[c]
    {
      hide Clear, Took, Finds;
      ghost var f := With(ip);
      assert Slot(f, ip.inum, s) == ip.addrs[s];
      if ip.addrs[s] == 0 {
        r := Balloc();
        if r.None? {
          NoneClear(f.bits);
          return;
        }
        NewAddr(f, ip.inum, s, r.value);
        ip.addrs := ip.addrs[s := r.value];
        assert With(ip) == SetAddr(Allocate(f, r.value), ip.inum, s, r.value);
        TookAddr(sb, old(disk), old(log), disk, log, f, With(ip), r.value, s, ip.inum, bn);
      } else {
        r := Some(ip.addrs[s]);
        FindsAtOnce(sb, disk, f.inodes, ip.inum, bn);
        assert log[|log|..] == [];
      }
    }

    /** New contents for a data block. */
    method Store(ip: Inode, b: nat, blk: Block)
      requires GoodSb(sb, disk) && Logged() && ip.inum < sb.ninodes && IsData(With(ip), b)
      modifies this
      ensures GoodSb(sb, disk) && Logged() && |log| > |old(log)| && OnDisk().inodes == old(OnDisk()).inodes
      ensures Adds(old(log), log, {b}) && disk == old(disk)[b := blk] && log == old(log) + [Update(b, blk)]
      ensures With(ip) == PutBlock(old(With(ip)), b, blk)
    {
      hide Apply, Abs;
      PutBlockAbs(sb, disk, b, blk);
      LogWrite(b, blk);
    }

    /** Entry e of ip's indirect block, allocated if absent. */
    method EnsureEntry(ip: Inode, e: nat) returns (r: Option<nat>)
      requires Valid(ip) && e < NINDIRECT && ip.addrs[NDIRECT] != 0
      modifies this
      ensures Valid(ip) && Extends(old(With(ip)), With(ip), ip.inum) && OnDisk().inodes == old(OnDisk()).inodes
      ensures old(Slot(With(ip), ip.inum, NDIRECT + 1 + e)) != 0 || r.None? ==> disk == old(disk) && log == old(log)
      ensures old(Slot(With(ip), ip.inum, NDIRECT + 1 + e)) != 0 ==> r.Some?
      ensures Adds(old(log), log, Bitmap(sb) + {ip.addrs[NDIRECT], Slot(With(ip), ip.inum, NDIRECT + 1 + e)})
      ensures r.Some? && old(Slot(With(ip), ip.inum, NDIRECT + 1 + e)) == 0 ==> |log| > |old(log)|
      ensures r.Some? ==> r.value == Slot(With(ip), ip.inum, NDIRECT + 1 + e) != 0
      ensures r.Some? ==>
                Finds(sb, old(disk), old(With(ip)).inodes, disk, With(ip).inodes, log[|old(log)|..], ip.inum, NDIRECT + e)
      ensures r.Some? ==> SlotsWith(old(With(ip)), With(ip), ip.inum, NDIRECT + 1 + e, r.value)
      ensures r.Some? ==>
                Free(With(ip)) + (if old(Slot(With(ip), ip.inum, NDIRECT + 1 + e)) == 0 then 1 else 0) == Free(old(With(ip)))
      ensures r.None? ==> Free(old(With(ip))) == 0 && forall c: nat :: c < sb.size ==> With(ip).bits[c]
    {
      hide Clear, Apply, WordAt, PutWord, Abs, Good, Extends, Took, Finds;
      ghost var f := With(ip);
      var root := ip.addrs[NDIRECT];
      assert Slot(f, ip.inum, NDIRECT) == root;
      SlotIsData(f, ip.inum, NDIRECT);
      DataIs(sb, disk, root);
      var addr := WordAt(disk[root], e);
      if addr == 0 {
        MetaMarked(f);
        r := Balloc();
        if r.None? {
          NoneClear(f.bits);
          ExtendsSelf(f, ip.inum);
          return;
        }
        NewEntry(f, ip.inum, e, r.value);
        DataIs(sb, disk, root);
        ghost var d1, log1 := disk, log;
        Store(ip, root, PutWord(disk[root], e, r.value));
        TookEntry(sb, old(disk), old(log), d1, log1, disk, log, f, r.value, root, e, ip.inum);
      } else {
        FindsAtOnce(sb, disk, f.inodes, ip.inum, NDIRECT + e);
        assert log[|log|..] == [];
        ExtendsSelf(f, ip.inum);
        r := Some(addr);
      }
    }

    /** bmap */
    method Bmap(ip: Inode, bn: nat) returns (r: Option<nat>)
      requires Valid(ip) && bn < MAXFILE
      modifies this, ip`addrs
      ensures Valid(ip) && Extends(old(With(ip)), With(ip), ip.inum) && OnDisk().inodes == old(OnDisk()).inodes
      ensures old(Slot(With(ip), ip.inum, SlotOf(bn))) != 0 ==>
                r.Some? && disk == old(disk) && log == old(log) && ip.addrs == old(ip.addrs) && With(ip) == old(With(ip))
      ensures old(AddrOf(With(ip), ip.inum, bn)) != 0 ==> ip.addrs == old(ip.addrs)
      ensures Adds(old(log), log, Bitmap(sb) + {ip.addrs[NDIRECT], Slot(With(ip), ip.inum, SlotOf(bn))})
      ensures r.Some? && old(Slot(With(ip), ip.inum, SlotOf(bn))) == 0 ==> |log| > |old(log)|
      ensures r.Some? ==> r.value == Slot(With(ip), ip.inum, SlotOf(bn)) != 0
      ensures r.Some? ==> IsData(With(ip), r.value) && With(ip).blocks[r.value] == disk[r.value]
      ensures r.Some? ==> Maps(old(With(ip)), With(ip), ip.inum, bn)
      ensures r.Some? ==>
                Finds(sb, old(disk), old(With(ip)).inodes, disk, With(ip).inodes, log[|old(log)|..], ip.inum, bn)
      ensures r.None? <==> Free(old(With(ip))) < MapCost(old(With(ip)), ip.inum, bn)
      ensures r.None? ==> forall c: nat :: c < sb.size ==> With(ip).bits[c]
    {
      hide Clear, Free, Extends, Good, Abs, Apply, Slot, GoodSb, SlotsWith, Maps, Finds;
      SlotAddr(With(ip), ip.inum, bn);
      if bn < NDIRECT {
        ghost var f := With(ip);
        r := EnsureAddr(ip, bn, bn);
        SlotAddr(With(ip), ip.inum, bn);
        if r.Some? {
          MapsDirect(f, With(ip), ip.inum, bn);
        }
      } else {
        ghost var f := With(ip);
        RootSlot(f, ip.inum);
        r := EnsureAddr(ip, NDIRECT, bn);
        if r.None? {
          return;
        }
        ghost var g, d1, log1 := With(ip), disk, log;
        RootSlot(g, ip.inum);
        OtherSlot(f, g, ip.inum, bn);
        r := EnsureEntry(ip, bn - NDIRECT);
        ExtendsTransitive(f, g, With(ip), ip.inum);
        if r.Some? {
          MapsIndirect(f, g, With(ip), ip.inum, bn);
          FindsThrough(sb, old(disk), f.inodes, d1, g.inodes, log1[|old(log)|..], disk, With(ip).inodes, log[|log1|..], ip.inum, bn);
          assert log[|old(log)|..] == log1[|old(log)|..] + log[|log1|..];
        }
      }
      if r.Some? {
        SlotIsData(With(ip), ip.inum, SlotOf(bn));
        DataIs(sb, disk, r.value);
      }
    }

    /** The in-memory inode and its disk copy are the same. */
    ghost predicate Agrees(ip: Inode)
      reads this, ip
    {
      GoodSb(sb, disk) && ip.inum < sb.ninodes && OnDisk().inodes[ip.inum] == ip.Value()
    }

    /** Part way through writei: `data` has been written at off, starting from f. */
    ghost predicate Writing(ip: Inode, f: Fs, ds: seq<Dinode>, off: nat, data: seq<Byte>)
      reads this, ip
    {
      && Valid(ip) && OnDisk().inodes == ds
      && Progress(f, With(ip), ip.inum, off, data)
    }

    /** The calls of log_write since `was` are for bitmap blocks and the blocks of the file from off to to, all of them. */
    ghost predicate Touched(was: seq<Update>, ip: Inode, off: nat, to: nat)
      reads this, ip
    {
      && GoodSb(sb, disk) && ip.inum < sb.ninodes && Adds(was, log, Bitmap(sb) + BlocksOf(With(ip), ip.inum, off, to))
      && Covers(was, log, With(ip), ip.inum, off, to)
    }

    /** The job w, at this point, its calls being those after the first n. */
    ghost function Here(ip: Inode, w: Job, n: nat): Files
      reads this, ip
      requires GoodSb(sb, disk) && ip.inum < sb.ninodes && n <= |log|
    {
      Solo(sb, disk, With(ip).inodes, w, log[n..])
    }

    /** The steps of a write have led from x to the point where tot bytes have been written. */
    ghost predicate Stepped(x: Files, ip: Inode, src: seq<Byte>, off: nat, tot: nat, n: nat)
      reads this, ip
    {
      && GoodSb(sb, disk) && ip.inum < sb.ninodes && n <= |log|
      && Leads(x, Here(ip, Job(0, ip.inum, off, src, Looping, tot), n))
    }

    /** One round of writei's loop. */
    method WriteRound(ip: Inode, src: seq<Byte>, off: nat, tot: nat, ghost f: Fs, ghost ds: seq<Dinode>, ghost was: seq<Update>, ghost x: Files)
      returns (m: Option<nat>)
      requires tot < |src| && off + |src| <= MAXFILE * BSIZE
      requires Writing(ip, f, ds, off, src[..tot]) && Touched(was, ip, off, off + tot)
      requires Paid(f, With(ip), ip.inum, off, off + tot, off + |src|) && Stepped(x, ip, src, off, tot, |was|)
      modifies this, ip`addrs
      ensures old(log) <= log
      ensures m.Some? ==> 0 < m.value && tot + m.value <= |src| && Writing(ip, f, ds, off, src[..tot + m.value])
      ensures m.Some? ==> Touched(was, ip, off, off + tot + m.value)
      ensures m.Some? ==> Paid(f, With(ip), ip.inum, off, off + tot + m.value, off + |src|)
      ensures m.Some? ==> Stepped(x, ip, src, off, tot + m.value, |was|)
      ensures m.None? ==> Free(f) < Missing(f, ip.inum, off, off + |src|)
      ensures m.None? ==> Valid(ip) && forall c: nat :: c < sb.size ==> With(ip).bits[c]
    {
      hide Progress, Extends, Good, Slot, Abs, Apply, Bitmap, BlocksOf, Covers, SameSlots, Paid, Maps, MapCost, Missing, Free;
      hide Leads, Finds, Solo;
      var at := off + tot;
      ghost var g0, log0 := With(ip), log;
      var a := Bmap(ip, at / BSIZE);
      if a.None? {
        CannotPay(f, g0, ip.inum, off, at, off + |src|);
        return None;
      }
      ghost var g, d1, log1 := With(ip), disk, log;
      RootSlot(g, ip.inum);
      var k := Chunk(|src| - tot, at);
      var more := src[tot..tot + k];
      var blk: Block := disk[a.value][..at % BSIZE] + more + disk[a.value][at % BSIZE + k..];
      ProgressRound(f, g0, g, ip.inum, off, src[..tot], more, blk);
      Store(ip, a.value, blk);
      RoundAdds(sb, was, log0, log1, log, g0, g, With(ip), ip.inum, off, at, k);
      RoundCovers(was, log0, log1, log, g0, g, With(ip), ip.inum, off, at, k);
      PaidNext(f, g0, g, With(ip), ip.inum, off, at, k, off + |src|);
      RoundLeads(x, sb, old(disk), g0.inodes, log0, d1, g, log1, log, Job(0, ip.inum, off, src, Looping, tot), |was|, a.value, k);
      assert src[..tot] + more == src[..tot + k];
      return Some(k);
    }

    /** The end of writei: the size, if the file has grown. */
    method StoreSize(ip: Inode, src: seq<Byte>, off: nat, ghost was: seq<Update>, ghost x: Files)
      requires Valid(ip) && off + |src| < TWO32 && Touched(was, ip, off, off + |src|) && Stepped(x, ip, src, off, |src|, |was|)
      modifies this, ip`size
      ensures GoodSb(sb, disk) && Logged() && old(log) <= log && was <= log
      ensures ip.Value() == old(ip.Value()).(size := ip.size) && ip.size == if |src| > 0 then Max(old(ip.size), off + |src|) else old(ip.size)
      ensures With(ip) == SetSize(old(With(ip)), ip.inum, ip.size)
      ensures OnDisk() == if |src| > 0 && off + |src| > old(ip.size) then With(ip) else old(OnDisk())
      ensures Adds(was, log, Bitmap(sb) + BlocksOf(With(ip), ip.inum, off, off + |src|) + {IBLOCK(ip.inum, sb)})
      ensures Covers(was, log, With(ip), ip.inum, off, off + |src|)
      ensures Leads(x, Here(ip, Job(0, ip.inum, off, src, Stored, |src|), |was|))
    {
      hide Good, Slot, Abs, Apply, Bitmap, BlocksOf, Covers, Leads, PutInode, Solo, GoodSb;
      ghost var h, log0, i := With(ip), log, ip.inum;
      SizeKeepsBlocks(h, i, off, off + |src|, off + |src|);
      CloseEnds(x, sb, disk, h.inodes, Job(0, i, off, src, Looping, |src|), log[|was|..]);
      if |src| > 0 && off + |src| > ip.size {
        ip.size := off + |src|;
        assert With(ip) == SetSize(h, i, off + |src|);
        Iupdate(ip);
        CoversMore(was, log0, log, h, With(ip), i, off, off + |src|);
        assert log[|was|..] == log0[|was|..] + [log[|log0|]];
      } else {
        assert h == SetSize(h, i, ip.size);
      }
    }

    /** writei refuses: there is no function for the device, or the range is not one that a file can have. */
    predicate WriteRefused(ip: Inode, off: nat, n: nat)
      reads ip
    {
      if ip.typ == T_DEV then !Handles(devsw, ip.major, true)
      else off > ip.size || off + n >= TWO32 || off + n > MAXFILE * BSIZE
    }

    /** writei */
    method Writei(ip: Inode, src: seq<Byte>, off: Word) returns (r: Io)
      requires Valid(ip) && |src| < TWO32
      modifies this, ip
      ensures Valid(ip) && old(log) <= log
      ensures r.Failed? <==> old(WriteRefused(ip, off, |src|))
      ensures r.Handed? <==> old(ip.typ) == T_DEV && !r.Failed?
      ensures r.Handed? ==> r.major == old(ip.major)
      ensures r.Failed? || r.Handed? ==> disk == old(disk) && log == old(log) && ip.Value() == old(ip.Value())
      ensures r.Done? ==>
                && r.n == |src|
                && Overlaid(old(With(ip)), With(ip), ip.inum, off, src)
                && ip.Value() == old(ip.Value()).(size := Max(old(ip.size), off + |src|), addrs := ip.addrs)
                && With(ip).inodes == old(With(ip)).inodes[ip.inum := ip.Value()]
      ensures r.Done? ==> KeepsAddrs(old(ip.addrs), ip.addrs)
      ensures r.Done? ==> Adds(old(log), log, Bitmap(sb) + BlocksOf(With(ip), ip.inum, off, off + |src|) + {IBLOCK(ip.inum, sb)})
      ensures r.Done? ==> Covers(old(log), log, With(ip), ip.inum, off, off + |src|)
      ensures r.Done? ==> Leads(old(Here(ip, Job(0, ip.inum, off, src, Looping, 0), |log|)),
                                Here(ip, Job(0, ip.inum, off, src, Stored, |src|), |old(log)|))
      ensures r.Done? && off + |src| <= old(ip.size) ==> OnDisk().inodes == old(OnDisk()).inodes
      ensures r.Done? && Mapped(old(With(ip)), ip.inum) ==> Mapped(With(ip), ip.inum)
      ensures r.Done? && old(Agrees(ip)) ==>
                (Agrees(ip) <==> off + |src| > old(ip.size) || Addressed(old(With(ip)), ip.inum, off, off + |src|))
      ensures r.Done? && old(Agrees(ip)) && Mapped(old(With(ip)), ip.inum) ==> Agrees(ip)
      ensures !r.OutOfRange?
      ensures r.OutOfBlocks? <==>
                !r.Failed? && !r.Handed? && Free(old(With(ip))) < Missing(old(With(ip)), ip.inum, off, off + |src|)
      ensures r.Done? ==> Free(With(ip)) + Missing(old(With(ip)), ip.inum, off, off + |src|) == Free(old(With(ip)))
      ensures r.OutOfBlocks? ==> forall c: nat :: c < sb.size ==> With(ip).bits[c]
    {
      hide Good, Slot, Abs, Overlaid, MappedRange, Addressed, Apply, Progress, GoodSb, KeepsAddrs, Bitmap, BlocksOf, Covers, Missing, Clear;
      hide Leads, Solo;
      ghost var f, ds, i := With(ip), OnDisk().inodes, ip.inum;
      if ip.typ == T_DEV {
        if !Handles(devsw, ip.major, true) {
          return Failed;
        }
        return Handed(ip.major);
      }
      if off > ip.size || (off + |src|) % TWO32 < off {
        return Failed;
      }
      if off + |src| > MAXFILE * BSIZE {
        return Failed;
      }
      ProgressStart(f, i, off);
      NothingCovered(log, f, i, off);
      ghost var x := Here(ip, Job(0, i, off, src, Looping, 0), |log|);
      LeadsNowhere(x);
      var tot := 0;
      assert src[..0] == [];
      while tot < |src|
        invariant tot <= |src| && Writing(ip, f, ds, off, src[..tot]) && Touched(old(log), ip, off, off + tot)
        invariant Paid(f, With(ip), i, off, off + tot, off + |src|)
        invariant ip.Value() == old(ip.Value()).(addrs := ip.addrs) && Stepped(x, ip, src, off, tot, |old(log)|)
      {
        var m := WriteRound(ip, src, off, tot, f, ds, old(log), x);
        if m.None? {
          return OutOfBlocks;
        }
        tot := tot + m.value;
      }
      assert src[..tot] == src;
      ProgressEnds(f, With(ip), i, off, src);
      WithinMapped(f, i, off, src);
      ghost var h := With(ip);
      NothingMissing(h, i, off + |src|);
      StoreSize(ip, src, off, old(log), x);
      return Done(|src|);
    }

    /** Part way through readi. */
    ghost predicate Reading(ip: Inode, f: Fs, ds: seq<Dinode>, off: nat, dst: seq<Byte>)
      reads this, ip
    {
      Valid(ip) && OnDisk().inodes == ds && ip.inum < |f.inodes| && Extends(f, With(ip), ip.inum) && ReadsFrom(f, ip.inum, off, dst)
    }

    /** One round of readi's loop. */
    method ReadRound(ip: Inode, off: nat, ghost n: nat, todo: nat, dst: seq<Byte>, ghost f: Fs, ghost ds: seq<Dinode>) returns (m: Option<seq<Byte>>)
      requires |dst| < n <= todo && off + n <= MAXFILE * BSIZE && Reading(ip, f, ds, off, dst)
      requires n == todo || off + n == MAXFILE * BSIZE
      requires Paid(f, With(ip), ip.inum, off, off + |dst|, off + n)
      modifies this, ip`addrs
      ensures m.Some? ==> 0 < |m.value| && |dst| + |m.value| <= n && Reading(ip, f, ds, off, dst + m.value)
      ensures m.Some? ==> |m.value| == Chunk(n - |dst|, off + |dst|)
      ensures m.Some? ==> Paid(f, With(ip), ip.inum, off, off + |dst| + |m.value|, off + n)
      ensures m.None? ==> Free(f) < Missing(f, ip.inum, off, off + n)
      ensures old(Slot(With(ip), ip.inum, SlotOf((off + |dst|) / BSIZE))) != 0 ==>
                m.Some? && disk == old(disk) && log == old(log) && With(ip) == old(With(ip)) && ip.addrs == old(ip.addrs)
      ensures old(log) <= log && (m.Some? && old(Slot(With(ip), ip.inum, SlotOf((off + |dst|) / BSIZE))) == 0 ==> |log| > |old(log)|)
      ensures m.None? ==> Valid(ip) && Extends(f, With(ip), ip.inum) && forall c: nat :: c < sb.size ==> With(ip).bits[c]
    {
      hide Extends, Good, Slot, Abs, ReadsFrom, Apply, Paid, Maps, MapCost, Missing, Free;
      var at := off + |dst|;
      ghost var g0 := With(ip);
      var a := Bmap(ip, at / BSIZE);
      ExtendsTransitive(f, g0, With(ip), ip.inum);
      if a.None? {
        CannotPay(f, g0, ip.inum, off, at, off + n);
        return None;
      }
      var k := Chunk(todo - |dst|, at);
      ReadMore(f, With(ip), ip.inum, off, dst, k);
      PaidNext(f, g0, With(ip), With(ip), ip.inum, off, at, k, off + n);
      return Some(disk[a.value][at % BSIZE..at % BSIZE + k]);
    }

    predicate ReadRefused(ip: Inode, off: nat, n: nat)
      reads ip
    {
      if ip.typ == T_DEV then !Handles(devsw, ip.major, false) else off > ip.size || off + n >= TWO32
    }

    /** readi's loop, up to the end of the file: the bytes, or a panic on the way. */
    method ReadRounds(ip: Inode, off: nat, todo: nat, ghost f: Fs, ghost ds: seq<Dinode>) returns (r: Io, dst: seq<Byte>)
      requires Reading(ip, f, ds, off, []) && With(ip) == f && off + todo <= ip.size
      modifies this, ip`addrs
      ensures Valid(ip) && Extends(f, With(ip), ip.inum) && old(log) <= log
      ensures r.Done? ==> r.n == |dst| == todo && ReadsFrom(f, ip.inum, off, dst)
      ensures r.Done? ==> (log == old(log) <==> MappedRange(f, ip.inum, off, off + todo))
      ensures Mapped(f, ip.inum) ==> !r.OutOfBlocks? && disk == old(disk) && ip.addrs == old(ip.addrs)
      ensures r.OutOfBlocks? <==> Free(f) < Missing(f, ip.inum, off, Limit(off + todo))
      ensures r.OutOfRange? <==> !r.OutOfBlocks? && 0 < todo && off + todo > MAXFILE * BSIZE
      ensures r.Done? || r.OutOfBlocks? || r.OutOfRange?
      ensures r.OutOfBlocks? ==> forall c: nat :: c < sb.size ==> With(ip).bits[c]
    {
      hide Extends, Good, GoodSb, Slot, Abs, ReadsFrom, MappedRange, Mapped, Apply, Missing, Clear;
      ghost var i := ip.inum;
      ghost var end := if off <= Limit(off + todo) then Limit(off + todo) - off else 0;
      dst := [];
      NothingBeyond(f, i, off, Limit(off + todo));
      MappedNone(f, i, off);
      while |dst| < todo
        invariant |dst| <= end <= todo && Reading(ip, f, ds, off, dst) && old(log) <= log
        invariant Paid(f, With(ip), i, off, off + |dst|, off + end)
        invariant MappedRange(f, i, off, off + |dst|) ==> disk == old(disk) && log == old(log) && With(ip) == f && ip.addrs == old(ip.addrs)
        invariant !MappedRange(f, i, off, off + |dst|) ==> |log| > |old(log)|
      {
        if (off + |dst|) / BSIZE >= MAXFILE {
          NothingMissing(With(ip), i, off + end);
          MappedPart(f, i, off, off + end);
          return OutOfRange, dst;
        }
        MappedMore(f, i, off, off + |dst|, Chunk(end - |dst|, off + |dst|));
        MappedWhole(f, i, off, off + |dst|);
        var m := ReadRound(ip, off, end, todo, dst, f, ds);
        if m.None? {
          return OutOfBlocks, dst;
        }
        dst := dst + m.value;
      }
      NothingMissing(With(ip), i, off + todo);
      MappedPart(f, i, off, off + todo);
      return Done(todo), dst;
    }

    /** Where a read of n bytes at off ends. */
    function ReadEnd(ip: Inode, off: nat, n: nat): nat
      reads ip
    {
      if off + n > ip.size then ip.size else off + n
    }

    /** readi */
    method Readi(ip: Inode, off: Word, n: Word) returns (r: Io, dst: seq<Byte>)
      requires Valid(ip)
      modifies this, ip`addrs
      ensures Valid(ip) && Extends(old(With(ip)), With(ip), ip.inum) && old(log) <= log
      ensures r.Failed? <==> old(ReadRefused(ip, off, n))
      ensures r.Handed? <==> ip.typ == T_DEV && !r.Failed?
      ensures r.Handed? ==> r.major == ip.major
      ensures r.Failed? || r.Handed? ==> dst == [] && disk == old(disk) && log == old(log) && ip.addrs == old(ip.addrs)
      ensures r.Done? ==> off + r.n == ReadEnd(ip, off, n) && r.n == |dst| && dst == Contents(old(With(ip)), ip.inum)[off..off + r.n]
      ensures Mapped(old(With(ip)), ip.inum) ==> !r.OutOfBlocks? && disk == old(disk) && ip.addrs == old(ip.addrs)
      ensures r.Done? ==> (log == old(log) <==> MappedRange(old(With(ip)), ip.inum, off, off + r.n))
      ensures r.OutOfBlocks? <==>
                !r.Failed? && !r.Handed? && Free(old(With(ip))) < Missing(old(With(ip)), ip.inum, off, Limit(ReadEnd(ip, off, n)))
      ensures r.OutOfRange? <==>
                !r.Failed? && !r.Handed? && !r.OutOfBlocks? && off < ReadEnd(ip, off, n) && ReadEnd(ip, off, n) > MAXFILE * BSIZE
      ensures r.OutOfBlocks? ==> forall c: nat :: c < sb.size ==> With(ip).bits[c]
    {
      hide Extends, Good, GoodSb, Slot, Abs, ReadsFrom, Contents, MappedRange, Mapped, Apply, Missing, Clear;
      ghost var f, ds, i := With(ip), OnDisk().inodes, ip.inum;
      ExtendsSelf(f, i);
      dst := [];
      if ip.typ == T_DEV {
        if !Handles(devsw, ip.major, false) {
          return Failed, dst;
        }
        return Handed(ip.major), dst;
      }
      if off > ip.size || (off + n) % TWO32 < off {
        return Failed, dst;
      }
      NothingRead(f, i, off);
      r, dst := ReadRounds(ip, off, if off + n > ip.size then ip.size - off else n, f, ds);
      if r.Done? {
        ReadsAre(f, i, off, dst);
      }
    }

    /** itrunc's first loop, for one direct slot. */
    method TruncDirect(ip: Inode, s: nat)
      requires Valid(ip) && s < NDIRECT
      modifies this, ip`addrs
      ensures Valid(ip) && Adds(old(log), log, Bitmap(sb)) && ip.addrs == old(ip.addrs)[s := 0] && OnDisk() == old(OnDisk()).(bits := OnDisk().bits)
    {
      hide Good, Abs, Apply;
      if ip.addrs[s] != 0 {
        ghost var f := With(ip);
        assert Slot(f, ip.inum, s) == ip.addrs[s];
        FreeDirect(f, ip.inum, s);
        Bfree(ip.addrs[s]);
        ip.addrs := ip.addrs[s := 0];
        assert With(ip) == SetAddr(f.(bits := With(ip).bits), ip.inum, s, 0);
      }
    }

    /** itrunc's second part: the blocks named by the indirect block, then the block itself. */
    method TruncIndirect(ip: Inode)
      requires Valid(ip) && ip.addrs[NDIRECT] != 0
      modifies this, ip`addrs
      ensures Valid(ip) && Adds(old(log), log, Bitmap(sb))
      ensures ip.addrs == old(ip.addrs)[NDIRECT := 0] && OnDisk() == old(OnDisk()).(bits := OnDisk().bits)
    {
      hide Good, Abs, FreedEntries, WordAt, Apply;
      ghost var f, i := With(ip), ip.inum;
      var root := ip.addrs[NDIRECT];
      assert Slot(f, i, NDIRECT) == root;
      SlotIsData(f, i, NDIRECT);
      DataIs(sb, disk, root);
      var a := disk[root];
      NothingFreed(f, i);
      for e := 0 to NINDIRECT
        invariant GoodSb(sb, disk) && Logged() && Adds(old(log), log, Bitmap(sb)) && FreedEntries(f, With(ip), i, e) && ip.addrs == old(ip.addrs)
        invariant OnDisk() == old(OnDisk()).(bits := OnDisk().bits)
      {
        FreeEntry(f, With(ip), i, e);
        assert Slot(f, i, NDIRECT + 1 + e) == WordAt(a, e);
        if WordAt(a, e) != 0 {
          ghost var g := With(ip);
          Bfree(WordAt(a, e));
          assert With(ip) == g.(bits := g.bits[WordAt(a, e) := false]);
        }
      }
      FreeIndirect(f, With(ip), i);
      ghost var g := With(ip);
      Bfree(root);
      ip.addrs := ip.addrs[NDIRECT := 0];
      FreedIs(f, g, i);
      assert With(ip) == SetAddr(g.(bits := g.bits[root := false]), i, NDIRECT, 0);
    }

    /** itrunc: frees every block of the file and only those. */
    method Itrunc(ip: Inode)
      requires Valid(ip)
      modifies this, ip
      ensures Valid(ip) && Agrees(ip)
      ensures |log| > |old(log)| && Adds(old(log), log[..|log| - 1], Bitmap(sb)) && log[|log| - 1].bno == IBLOCK(ip.inum, sb)
      ensures ip.Value() == old(ip.Value()).(size := 0, addrs := seq(NDIRECT + 1, _ => 0))
      ensures OnDisk() == old(With(ip)).(bits := OnDisk().bits, inodes := old(With(ip)).inodes[ip.inum := ip.Value()])
    {
      hide Good, Abs, Apply;
      for s := 0 to NDIRECT
        invariant Valid(ip) && Adds(old(log), log, Bitmap(sb)) && ip.Value() == old(ip.Value()).(addrs := ip.addrs)
        invariant forall t :: 0 <= t < s ==> ip.addrs[t] == 0
        invariant OnDisk() == old(OnDisk()).(bits := OnDisk().bits)
      {
        TruncDirect(ip, s);
      }
      if ip.addrs[NDIRECT] != 0 {
        TruncIndirect(ip);
      }
      assert ip.addrs == seq(NDIRECT + 1, _ => 0);
      ghost var g := With(ip);
      SetSizeKeeps(g, ip.inum, 0);
      ip.size := 0;
      assert With(ip) == SetSize(g, ip.inum, 0);
      ghost var freed := log;
      Iupdate(ip);
      assert log[..|freed|] == freed;
    }
  }

  lemma NothingFreed(f: Fs, i: nat)
    requires Good(f)
    ensures FreedEntries(f, f, i, 0)
  {
    assert Named(f, i, NDIRECT + 1, NDIRECT + 1) == iset{};
  }

  lemma FreedIs(f: Fs, g: Fs, i: nat)
    requires FreedEntries(f, g, i, NINDIRECT)
    ensures g == f.(bits := g.bits)
  {
  }

  lemma NothingRead(f: Fs, i: nat, off: nat)
    ensures ReadsFrom(f, i, off, [])
  {
  }

  /** The inode's own address for block bn is the slot, or that of the slot's block. */
  lemma SlotAddr(f: Fs, i: nat, bn: nat)
    requires Good(f)
    ensures bn < NDIRECT ==> Slot(f, i, SlotOf(bn)) == AddrOf(f, i, bn)
    ensures AddrOf(f, i, bn) == 0 ==> Slot(f, i, SlotOf(bn)) == 0
  {
  }

  lemma WithinMapped(f: Fs, i: nat, off: nat, src: seq<Byte>)
    requires Good(f)
    ensures Mapped(f, i) && off + |src| <= f.inodes[i].size ==> Addressed(f, i, off, off + |src|)
  {
    if Mapped(f, i) && off + |src| <= f.inodes[i].size {
      MappedIsAddressed(f, i, off, off + |src|);
    }
  }

  lemma NothingBeyond(f: Fs, i: nat, off: nat, to: nat)
    ensures to <= off ==> Missing(f, i, off, to) == Missing(f, i, off, off)
  {
  }

  lemma MappedNone(f: Fs, i: nat, off: nat)
    ensures MappedRange(f, i, off, off)
  {
  }

  /** A stretch within one block is mapped exactly if that block is. */
  lemma MappedMore(f: Fs, i: nat, off: nat, at: nat, k: nat)
    requires off <= at && 0 < k && at % BSIZE + k <= BSIZE
    ensures MappedRange(f, i, off, at + k) <==> MappedRange(f, i, off, at) && Slot(f, i, SlotOf(at / BSIZE)) != 0
  {
    forall p: nat | at <= p < at + k
      ensures p / BSIZE == at / BSIZE
    {
      SameBlock(at, p);
    }
  }

  lemma MappedWhole(f: Fs, i: nat, off: nat, at: nat)
    requires off <= at
    ensures Mapped(f, i) && at < f.inodes[i].size ==> MappedRange(f, i, off, at) && Slot(f, i, SlotOf(at / BSIZE)) != 0
  {
  }

  lemma MappedPart(f: Fs, i: nat, off: nat, to: nat)
    ensures Mapped(f, i) && to <= f.inodes[i].size ==> MappedRange(f, i, off, to)
  {
  }

  lemma TookAddr(sb: Superblock, d: Disk, log: seq<Update>, d': Disk, log': seq<Update>, f: Fs, g: Fs, b: nat, s: nat, i: nat, bn: nat)
    requires GoodSb(sb, d) && Took(sb, d, log, d', log', b) && f == Abs(sb, d).(inodes := f.inodes) && FirstClear(f, b) && b < TWO32
    requires i < |f.inodes| && s == (if bn < NDIRECT then bn else NDIRECT) && Slot(f, i, s) == 0
    requires g.inodes == f.inodes[i := f.inodes[i].(addrs := f.inodes[i].addrs[s := b])]
    ensures Finds(sb, d, f.inodes, d', g.inodes, log'[|log|..], i, bn)
  {
    hide Abs, Slot, Finds, Taken, Taking;
    assert log'[|log|..] == Taking(sb, d, b);
    FindsAddr(sb, d, f.inodes, b, s, i, bn);
  }

  lemma TookEntry(sb: Superblock, d: Disk, log: seq<Update>, d1: Disk, log1: seq<Update>, d': Disk, log': seq<Update>,
                  f: Fs, b: nat, root: nat, e: nat, i: nat)
    requires GoodSb(sb, d) && Took(sb, d, log, d1, log1, b) && f == Abs(sb, d).(inodes := f.inodes) && FirstClear(f, b) && b < TWO32
    requires i < |f.inodes| && f.inodes[i].addrs[NDIRECT] == root == Slot(f, i, NDIRECT) != 0 && root < |d1| == |d|
    requires e < NINDIRECT && Slot(f, i, NDIRECT + 1 + e) == 0
    requires var blk := PutWord(d1[root], e, b); d' == d1[root := blk] && log' == log1 + [Update(root, blk)]
    ensures Finds(sb, d, f.inodes, d', f.inodes, log'[|log|..], i, NDIRECT + e)
  {
    hide Abs, Slot, Finds, Taken, Taking, PutWord;
    assert log'[|log|..] == Taking(sb, d, b) + [Update(root, PutWord(d1[root], e, b))];
    FindsEntry(sb, d, f.inodes, b, e, i, NDIRECT + e);
  }

  lemma BitmapHas(sb: Superblock, b: nat)
    requires b < sb.size
    ensures BBLOCK(b, sb) in Bitmap(sb)
  {
    assert b / BPB <= sb.size / BPB;
    assert IsBitmap(sb, BBLOCK(b, sb));
  }

  lemma MapsDirect(f: Fs, g: Fs, i: nat, bn: nat)
    requires bn < NDIRECT && SlotsWith(f, g, i, bn, Slot(g, i, bn)) && Slot(g, i, bn) != 0
    requires Free(g) + (if Slot(f, i, bn) == 0 then 1 else 0) == Free(f)
    ensures Maps(f, g, i, bn)
  {
    hide Slot, Clear;
  }

  /** Allocating the indirect block leaves the other slots. */
  lemma OtherSlot(f: Fs, g: Fs, i: nat, bn: nat)
    requires bn >= NDIRECT && SlotsWith(f, g, i, NDIRECT, Slot(g, i, NDIRECT))
    ensures Slot(g, i, SlotOf(bn)) == Slot(f, i, SlotOf(bn))
  {
    hide Slot;
  }

  lemma MapsIndirect(f: Fs, g: Fs, h: Fs, i: nat, bn: nat)
    requires bn >= NDIRECT && SlotsWith(f, g, i, NDIRECT, Slot(g, i, NDIRECT)) && Slot(g, i, NDIRECT) != 0
    requires SlotsWith(g, h, i, SlotOf(bn), Slot(h, i, SlotOf(bn))) && Slot(h, i, SlotOf(bn)) != 0
    requires Free(g) + (if Slot(f, i, NDIRECT) == 0 then 1 else 0) == Free(f)
    requires Free(h) + (if Slot(g, i, SlotOf(bn)) == 0 then 1 else 0) == Free(g)
    ensures Maps(f, h, i, bn)
  {
    hide Slot, Clear;
    forall j: nat, t: nat
      ensures Slot(h, j, t) == Slot(f, j, t) || (j == i && (t == SlotOf(bn) || t == NDIRECT))
    {
      assert (j == i && t == SlotOf(bn)) || Slot(h, j, t) == Slot(g, j, t);
      assert (j == i && t == NDIRECT) || Slot(g, j, t) == Slot(f, j, t);
    }
  }

  lemma RootSlot(f: Fs, i: nat)
    requires i < |f.inodes|
    ensures Slot(f, i, NDIRECT) == f.inodes[i].addrs[NDIRECT]
  {
  }

  lemma RoundAdds(sb: Superblock, was: seq<Update>, log0: seq<Update>, log1: seq<Update>, log2: seq<Update>,
                  g0: Fs, g: Fs, h: Fs, i: nat, off: nat, at: nat, k: nat)
    requires Adds(was, log0, Bitmap(sb) + BlocksOf(g0, i, off, at)) && Extends(g0, g, i) && SameSlots(g, h)
    requires Adds(log0, log1, Bitmap(sb) + {Slot(g, i, NDIRECT), Slot(g, i, SlotOf(at / BSIZE))})
    requires Adds(log1, log2, {Slot(g, i, SlotOf(at / BSIZE))})
    requires off <= at && 0 < k && at % BSIZE + k <= BSIZE
    requires forall m :: 0 <= m < |log2| ==> log2[m].bno != 0
    ensures Adds(was, log2, Bitmap(sb) + BlocksOf(h, i, off, at + k))
  {
    hide Slot, BlocksOf, Bitmap, SameRaw;
    forall m | |was| <= m < |log2|
      ensures log2[m].bno in Bitmap(sb) + BlocksOf(h, i, off, at + k)
    {
      var b := log2[m].bno;
      if m < |log0| {
        assert log0[m].bno == b;
        if b !in Bitmap(sb) {
          BlocksStay(g0, h, i, off, at, at + k, b);
        }
      } else {
        assert m < |log1| ==> log1[m].bno == b;
        assert b in Bitmap(sb) || b == Slot(h, i, NDIRECT) || b == Slot(h, i, SlotOf(at / BSIZE));
        BlocksHas(h, i, off, at, k);
      }
    }
  }

  /** The steps of a round: those of bmap, and the bytes. */
  lemma RoundLeads(x: Files, sb: Superblock, d: Disk, mem: seq<Dinode>, log: seq<Update>, d1: Disk, g: Fs, log1: seq<Update>,
                   log2: seq<Update>, w: Job, n: nat, a: nat, k: nat)
    requires n <= |log| <= |log1| && log <= log1 && Leads(x, Solo(sb, d, mem, w, log[n..]))
    requires LooksFor(w, w.i, At(w) / BSIZE) && Finds(sb, d, mem, d1, g.inodes, log1[|log|..], w.i, At(w) / BSIZE)
    requires GoodSb(sb, d1) && g == Abs(sb, d1).(inodes := g.inodes) && a == Slot(g, w.i, SlotOf(At(w) / BSIZE)) != 0 && a < |d1|
    requires k == Chunk(|w.data| - w.done, At(w))
    requires var at := At(w);
             log2 == log1 + [Update(a, d1[a][..at % BSIZE] + w.data[w.done..w.done + k] + d1[a][at % BSIZE + k..])]
    ensures Leads(x, Solo(sb, d1[a := log2[|log1|].data], g.inodes, w.(done := w.done + k), log2[n..]))
  {
    hide Abs, Slot, Leads;
    var y, us := Solo(sb, d, mem, w, log[n..]), log1[n..];
    assert us == log[n..] + log1[|log|..];
    assert log2[n..] == us + [log2[|log1|]];
    LeadsThrough(x, y, Solo(sb, d1, g.inodes, w, us));
    PutLeads(sb, d1, g.inodes, w, us, a, k);
    LeadsThrough(x, Solo(sb, d1, g.inodes, w, us), Solo(sb, d1[a := log2[|log1|].data], g.inodes, w.(done := w.done + k), log2[n..]));
  }

  /** And the end of writei. */
  lemma CloseEnds(x: Files, sb: Superblock, d: Disk, mem: seq<Dinode>, w: Job, us: seq<Update>)
    requires Leads(x, Solo(sb, d, mem, w, us))
    requires GoodSb(sb, d) && w.stage == Looping && w.done == |w.data| && w.i < |mem| == sb.ninodes && w.off + |w.data| < TWO32
    ensures IBLOCK(w.i, sb) < |d|
    ensures var n := mem[w.i].(size := w.off + |w.data|);
            var blk := PutInode(d[IBLOCK(w.i, sb)], w.i, n);
            |w.data| > 0 && w.off + |w.data| > mem[w.i].size ==>
              Leads(x, Solo(sb, d[IBLOCK(w.i, sb) := blk], mem[w.i := n], w.(stage := Stored), us + [Update(IBLOCK(w.i, sb), blk)]))
    ensures !(|w.data| > 0 && w.off + |w.data| > mem[w.i].size) ==> Leads(x, Solo(sb, d, mem, w.(stage := Stored), us))
  {
    hide Leads, PutInode;
    CloseLeads(sb, d, mem, w, us);
    var y, b := Solo(sb, d, mem, w, us), IBLOCK(w.i, sb);
    var n := mem[w.i].(size := w.off + |w.data|);
    var blk := PutInode(d[b], w.i, n);
    if |w.data| > 0 && w.off + |w.data| > mem[w.i].size {
      LeadsThrough(x, y, Solo(sb, d[b := blk], mem[w.i := n], w.(stage := Stored), us + [Update(b, blk)]));
    } else {
      LeadsThrough(x, y, Solo(sb, d, mem, w.(stage := Stored), us));
    }
  }

  lemma NothingCovered(log: seq<Update>, f: Fs, i: nat, off: nat)
    ensures Covers(log, log, f, i, off, off)
  {
  }

  /** Later calls, and slots that stay, keep what is covered. */
  lemma CoversMore(was: seq<Update>, log: seq<Update>, more: seq<Update>, f: Fs, g: Fs, i: nat, off: nat, to: nat)
    requires Covers(was, log, f, i, off, to) && log <= more
    requires forall t: nat :: Called(was, log, Slot(f, i, t)) ==> Slot(g, i, t) == Slot(f, i, t)
    ensures Covers(was, more, g, i, off, to)
  {
    hide Slot;
    forall bn: nat | Spans(off, to, bn)
      ensures Called(was, more, Slot(g, i, SlotOf(bn)))
    {
      var m :| |was| <= m < |log| && log[m].bno == Slot(f, i, SlotOf(bn));
      assert more[m].bno == Slot(g, i, SlotOf(bn));
    }
  }

  lemma RoundCovers(was: seq<Update>, log0: seq<Update>, log1: seq<Update>, log2: seq<Update>,
                    g0: Fs, g: Fs, h: Fs, i: nat, off: nat, at: nat, k: nat)
    requires Covers(was, log0, g0, i, off, at) && Extends(g0, g, i) && SameSlots(g, h)
    requires was <= log0 <= log1 < log2 && log2[|log1|].bno == Slot(g, i, SlotOf(at / BSIZE))
    requires off <= at && 0 < k && at % BSIZE + k <= BSIZE
    requires forall m :: 0 <= m < |log2| ==> log2[m].bno != 0
    ensures Covers(was, log2, h, i, off, at + k)
  {
    hide Slot, SameRaw, Covers;
    CoversMore(was, log0, log2, g0, h, i, off, at);
    CoversNext(was, log2, h, i, off, at, k);
  }

  lemma CoversNext(was: seq<Update>, log: seq<Update>, f: Fs, i: nat, off: nat, at: nat, k: nat)
    requires Covers(was, log, f, i, off, at) && Called(was, log, Slot(f, i, SlotOf(at / BSIZE)))
    requires off <= at && 0 < k && at % BSIZE + k <= BSIZE
    ensures Covers(was, log, f, i, off, at + k)
  {
    hide Slot, Called;
    assert (at + k - 1) / BSIZE == at / BSIZE;
    assert forall bn: nat :: Spans(off, at + k, bn) ==> Spans(off, at, bn) || bn == at / BSIZE;
  }

  lemma BlocksHas(f: Fs, i: nat, off: nat, at: nat, k: nat)
    requires off <= at && 0 < k && at % BSIZE + k <= BSIZE
    ensures Slot(f, i, NDIRECT) in BlocksOf(f, i, off, at + k) && Slot(f, i, SlotOf(at / BSIZE)) in BlocksOf(f, i, off, at + k)
  {
    hide Slot;
    assert at / BSIZE <= (at + k) / BSIZE && Spans(off, at + k, at / BSIZE);
  }

  lemma SizeKeepsBlocks(f: Fs, i: nat, off: nat, to: nat, size: nat)
    requires i < |f.inodes|
    ensures size < TWO32 ==> forall t: nat :: Slot(SetSize(f, i, size), i, t) == Slot(f, i, t)
    ensures size < TWO32 ==> BlocksOf(SetSize(f, i, size), i, off, to) == BlocksOf(f, i, off, to)
  {
    if size < TWO32 {
      var g := SetSize(f, i, size);
      assert forall t: nat :: Slot(g, i, t) == Slot(f, i, t);
    }
  }
}
