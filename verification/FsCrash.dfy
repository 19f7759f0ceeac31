/**
 File-system operations over the log (fs.c, log.c, file.c): the log_write calls that writei
 and itrunc make between begin_op and end_op, taken as the history of a run of the log, and
 what a crash and recovery make of the files.
 */
module FsCrash {
  import opened Basics
  import opened Blocks
  import opened FsModel
  import opened FsImage
  import opened FsSteps
  import opened FileSystem
  import opened LogCrash
  import opened GroupCommit
  import opened Histories
  import opened Operations

  const CHUNK: nat := (LOGSIZE - 1 - 1 - 2) / 2 * 512  // what filewrite writes at a time

  /** The file system lies outside the log. */
  lemma AbsHome(sb: Superblock, l: Layout, d: Disk, e: Disk)
    requires GoodSb(sb, d) && SameHome(l, d, e) && l.start + l.size <= sb.inodestart
    ensures GoodSb(sb, e) && Abs(sb, e) == Abs(sb, d)
  {
    hide BitOf, InodeOf, WordsAt;
    forall b: nat | sb.inodestart <= b < sb.size
      ensures e[b] == d[b]
    {
      assert Home(l, |d|, b);
    }
    forall b: nat | b < sb.size
      ensures BBLOCK(b, sb) < |d| && BitAt(sb, e, b) == BitAt(sb, d, b)
    {
      BitsAre(sb, d, b);
      BitmapAboveInodes(sb, d, b);
    }
    forall i: nat | i < sb.ninodes
      ensures IBLOCK(i, sb) < |d| && InodeAt(sb, e, i) == InodeAt(sb, d, i)
    {
      InodesAre(sb, d, i);
    }
  }

  /** A run of the log, cut off anywhere, that has logged some or all of these operations. */
  ghost predicate Ran(sb: Superblock, s0: State, acts: seq<Action>, ops: seq<Operation>) {
    && Init(s0) && CanRun(s0, acts) && FreshRun(s0, acts)
    && GoodSb(sb, s0.disk0) && s0.l.start + s0.l.size <= sb.inodestart
    && End(s0, acts).events <= History(ops)
  }

  /** Recovery, interrupted as often as ks says, finds the file system f. */
  ghost predicate Recovers(sb: Superblock, s: State, ks: seq<nat>, f: Fs) {
    && GoodDisk(s.l, s.disk)
    && var d := Recovered(s.l, AfterCrashes(s.l, s.disk, ks));
       GoodSb(sb, d) && Abs(sb, d) == f
  }

  /**
   Wherever a run is cut off, recovery finds the file system that some number of whole
   operations left; once the log is idle, that all of them left.
   */
  lemma CrashBetweenOperations(sb: Superblock, s0: State, acts: seq<Action>, ops: seq<Operation>, ks: seq<nat>) returns (k: nat)
    requires Ran(sb, s0, acts, ops)
    ensures k <= |ops| && GoodSb(sb, After(s0.disk0, ops[..k]))
    ensures var s := End(s0, acts);
            && Recovers(sb, s, ks, Abs(sb, After(s0.disk0, ops[..k])))
            && (s.events == History(ops) && s.outstanding == 0 && !s.committing ==>
                  After(s0.disk0, ops[..k]) == After(s0.disk0, ops))
  {
    hide Abs, GoodSb, GoodDisk, SameHome, Recovered, AfterCrashes;
    hide Init, CanRun, FreshRun, End, Replay, Open, History, After;
    CrashConsistency(s0, acts, ks);
    var s := End(s0, acts);
    assert s.events[..|s.events|] == s.events;
    k := WholeOperations(ops, s.events[..s.safe]);
    HistoryReplays(s0.disk0, ops[..k]);
    HistoryReplays(s0.disk0, ops);
    SameSb(sb, s0.disk0, After(s0.disk0, ops[..k]));
    HomeBack(sb, s.l, Recovered(s.l, AfterCrashes(s.l, s.disk, ks)), After(s0.disk0, ops[..k]));
  }

  lemma SameSb(sb: Superblock, d: Disk, e: Disk)
    requires GoodSb(sb, d) && |d| == |e|
    ensures GoodSb(sb, e)
  {
  }

  lemma HomeBack(sb: Superblock, l: Layout, d: Disk, e: Disk)
    requires GoodSb(sb, e) && SameHome(l, d, e) && l.start + l.size <= sb.inodestart
    ensures GoodSb(sb, d) && Abs(sb, d) == Abs(sb, e)
  {
    assert SameHome(l, e, d);
    AbsHome(sb, l, e, d);
  }

  // ----------------------------------------------------- single operations

  /** Cut off anywhere, a run of the one operation from disk d leaves f or g. */
  ghost predicate Atomic(sb: Superblock, d: Disk, o: Operation, f: Fs, g: Fs) {
    forall s0: State, acts: seq<Action>, ks: seq<nat> :: Ran(sb, s0, acts, [o]) && s0.disk0 == d ==>
      Recovers(sb, End(s0, acts), ks, f) || Recovers(sb, End(s0, acts), ks, g)
  }

  lemma OperationIsAtomic(sb: Superblock, d: Disk, o: Operation)
    requires GoodSb(sb, d) && GoodSb(sb, Apply(d, o.updates))
    ensures Atomic(sb, d, o, Abs(sb, d), Abs(sb, Apply(d, o.updates)))
  {
    hide Abs, GoodSb, Recovers, Apply, History, End, Init, CanRun, FreshRun;
    forall s0: State, acts: seq<Action>, ks: seq<nat> | Ran(sb, s0, acts, [o]) && s0.disk0 == d
      ensures Recovers(sb, End(s0, acts), ks, Abs(sb, d)) || Recovers(sb, End(s0, acts), ks, Abs(sb, Apply(d, o.updates)))
    {
      var k := CrashBetweenOperations(sb, s0, acts, [o], ks);
      AfterOne(d, o, k);
    }
  }

  /** A freshly booted log for process o.i, on disk d and with n + 2 blocks or more, in front of the file system. */
  ghost predicate Ready(sb: Superblock, d: Disk, s0: State, o: Operation, n: nat) {
    && Init(s0) && s0.disk0 == d && o.i < |s0.procs|
    && GoodSb(sb, d) && s0.l.start + s0.l.size <= sb.inodestart && n + 1 < s0.l.size
  }

  /** A run that commits the operation, after which every recovery finds g. */
  ghost predicate Lasts(sb: Superblock, s0: State, acts: seq<Action>, o: Operation, g: Fs) {
    Settles(s0, acts, EventsOf(o)) && forall ks: seq<nat> :: Recovers(sb, End(s0, acts), ks, g)
  }

  /** On every such log the operation has a run that commits it. */
  ghost predicate Lasting(sb: Superblock, d: Disk, o: Operation, n: nat, g: Fs) {
    forall s0: State :: Ready(sb, d, s0, o, n) ==> exists acts: seq<Action> :: Lasts(sb, s0, acts, o, g)
  }

  lemma {:induction false} ListedGrows(us: seq<Update>, k: nat)
    requires k <= |us|
    ensures |Listed(us[..k])| <= |Listed(us)|
  {
    if k < |us| {
      ListedGrows(us[..|us| - 1], k);
      assert us[..|us| - 1][..k] == us[..k];
    } else {
      assert us[..k] == us;
    }
  }

  /** An operation that lists few enough blocks can be completed and committed. */
  lemma OperationLasts(sb: Superblock, d: Disk, o: Operation, n: nat)
    requires GoodSb(sb, d) && GoodSb(sb, Apply(d, o.updates)) && |Listed(o.updates)| <= n < NBUF
    requires forall k :: 0 <= k < |o.updates| ==> sb.inodestart <= o.updates[k].bno < |d|
    ensures Lasting(sb, d, o, n, Abs(sb, Apply(d, o.updates)))
  {
    hide Abs, GoodSb, Recovers, Apply, Listed;
    forall s0: State | Ready(sb, d, s0, o, n)
      ensures exists acts: seq<Action> :: Lasts(sb, s0, acts, o, Abs(sb, Apply(d, o.updates)))
    {
      forall k | 0 <= k < |o.updates|
        ensures RoomAt(s0.l, o.updates, k)
      {
        ListedGrows(o.updates, k);
      }
      CommitsExactly(s0, o);
      var acts :| Settles(s0, acts, EventsOf(o));
      CommittedLasts(sb, s0, acts, o);
      assert Lasts(sb, s0, acts, o, Abs(sb, Apply(d, o.updates)));
    }
  }

  lemma CommittedLasts(sb: Superblock, s0: State, acts: seq<Action>, o: Operation)
    requires Init(s0) && GoodSb(sb, s0.disk0) && s0.l.start + s0.l.size <= sb.inodestart && Settles(s0, acts, EventsOf(o))
    requires GoodSb(sb, Apply(s0.disk0, o.updates))
    ensures Lasts(sb, s0, acts, o, Abs(sb, Apply(s0.disk0, o.updates)))
  {
    hide Abs, GoodSb, Recovers, Apply, Init, CanRun, FreshRun, End, EventsOf;
    OneHistory(o);
    AfterOne(s0.disk0, o, 1);
    assert [o][..1] == [o];
    forall ks: seq<nat>
      ensures Recovers(sb, End(s0, acts), ks, Abs(sb, Apply(s0.disk0, o.updates)))
    {
      var k := CrashBetweenOperations(sb, s0, acts, [o], ks);
    }
  }

  lemma OneHistory(o: Operation)
    ensures History([o]) == EventsOf(o)
  {
    assert [o][..0] == [];
  }

  lemma AfterOne(d: Disk, o: Operation, k: nat)
    requires k <= 1
    ensures After(d, [o][..k]) == if k == 0 then d else Apply(d, o.updates)
  {
    assert [o][..0] == [];
  }

  /** The files of g are those of f with src written over file i at off. */
  ghost predicate Wrote(f: Fs, g: Fs, i: nat, off: nat, src: seq<Byte>) {
    && i < |f.inodes| == |g.inodes| && off <= f.inodes[i].size
    && forall j: nat :: j < |f.inodes| ==>
         Contents(g, j) == if j == i then Patched(Contents(f, i), off, src) else Contents(f, j)
  }

  lemma WroteFiles(f: Fs, g: Fs, i: nat, off: nat, src: seq<Byte>)
    requires Overlaid(f, g, i, off, src) && i < |f.inodes| == |g.inodes| && off <= f.inodes[i].size
    requires g.inodes == f.inodes[i := g.inodes[i]] && g.inodes[i].size == Max(f.inodes[i].size, off + |src|)
    ensures Wrote(f, g, i, off, src)
  {
    hide Overlaid, Patched, Raw;
    forall j: nat | j < |f.inodes|
      ensures Contents(g, j) == if j == i then Patched(Contents(f, i), off, src) else Contents(f, j)
    {
      OverlayContents(f, g, i, off, src, j);
    }
  }

  /** A block that an inode names in memory and not on disk is marked, and named by no file on disk. */
  lemma Orphaned(f: Fs, g: Fs, i: nat)
    requires Good(g) && i < |f.inodes| == |g.inodes| && g.(inodes := f.inodes) == f
    requires forall j: nat :: j < |f.inodes| ==> KeepsAddrs(f.inodes[j].addrs, g.inodes[j].addrs)
    requires f.inodes[i].addrs != g.inodes[i].addrs
    ensures !Good(f)
  {
    var s: nat :| s <= NDIRECT && f.inodes[i].addrs[s] != g.inodes[i].addrs[s];
    var b := Slot(g, i, s);
    SlotIsData(g, i, s);
    forall j: nat, t: nat
      ensures Slot(f, j, t) != b
    {
      SlotStays(f, g, j, t);
    }
    assert !Owns(f, b);
  }

  lemma SlotStays(f: Fs, g: Fs, j: nat, t: nat)
    requires |f.inodes| == |g.inodes| && g.(inodes := f.inodes) == f && f.meta > 0
    requires j < |f.inodes| ==> KeepsAddrs(f.inodes[j].addrs, g.inodes[j].addrs)
    ensures Slot(f, j, t) != 0 ==> Slot(g, j, t) == Slot(f, j, t)
  {
    hide WordAt;
  }

  lemma OneInode(on: seq<Dinode>, mem: seq<Dinode>, i: nat)
    requires i < |on| == |mem| && mem == on[i := mem[i]] && KeepsAddrs(on[i].addrs, mem[i].addrs)
    ensures forall j: nat :: j < |on| ==> KeepsAddrs(on[j].addrs, mem[j].addrs)
  {
  }

  /** How many blocks of a file hold its bytes from off to to. */
  function Span(off: nat, to: nat): nat {
    if off < to then (to - 1) / BSIZE - off / BSIZE + 1 else 0
  }

  lemma {:induction false} SpanSize(f: Fs, i: nat, off: nat, to: nat, n: nat)
    requires n == Span(off, to)
    ensures |BlocksOf(f, i, off, to)| <= n + 1
  {
    var all := set bn: nat | bn <= to / BSIZE && Spans(off, to, bn) :: Slot(f, i, SlotOf(bn));
    ImageSize(f, i, off / BSIZE, n);
    var img := Image(f, i, off / BSIZE, n);
    forall b | b in all
      ensures b in img
    {
      var bn: nat :| bn <= to / BSIZE && Spans(off, to, bn) && b == Slot(f, i, SlotOf(bn));
      ImageHas(f, i, off / BSIZE, n, bn);
    }
    assert BlocksOf(f, i, off, to) <= img + {Slot(f, i, NDIRECT)};
    SubsetSize(BlocksOf(f, i, off, to), img + {Slot(f, i, NDIRECT)});
  }

  /** The slots of n blocks of a file. */
  ghost function Image(f: Fs, i: nat, from: nat, n: nat): set<nat> {
    if n == 0 then {} else Image(f, i, from, n - 1) + {Slot(f, i, SlotOf(from + n - 1))}
  }

  lemma {:induction false} ImageSize(f: Fs, i: nat, from: nat, n: nat)
    ensures |Image(f, i, from, n)| <= n
  {
    if n > 0 {
      ImageSize(f, i, from, n - 1);
    }
  }

  lemma {:induction false} ImageHas(f: Fs, i: nat, from: nat, n: nat, bn: nat)
    requires from <= bn < from + n
    ensures Slot(f, i, SlotOf(bn)) in Image(f, i, from, n)
  {
    if bn < from + n - 1 {
      ImageHas(f, i, from, n - 1, bn);
    }
  }

  lemma {:induction false} ImageOnly(f: Fs, i: nat, from: nat, n: nat, b: nat)
    requires b in Image(f, i, from, n)
    ensures exists bn: nat :: from <= bn < from + n && Slot(f, i, SlotOf(bn)) == b
  {
    hide Slot;
    if b in Image(f, i, from, n - 1) {
      ImageOnly(f, i, from, n - 1, b);
    } else {
      assert Slot(f, i, SlotOf(from + n - 1)) == b;
    }
  }

  /** They are different blocks, if there is one in each slot. */
  lemma {:induction false} ImageExact(f: Fs, i: nat, from: nat, n: nat)
    requires Good(f) && forall bn: nat :: from <= bn < from + n ==> Slot(f, i, SlotOf(bn)) != 0
    ensures |Image(f, i, from, n)| == n
  {
    hide Slot, Good;
    if n > 0 {
      var last := from + n - 1;
      ImageExact(f, i, from, n - 1);
      if Slot(f, i, SlotOf(last)) in Image(f, i, from, n - 1) {
        ImageOnly(f, i, from, n - 1, Slot(f, i, SlotOf(last)));
        var bn: nat :| from <= bn < last && Slot(f, i, SlotOf(bn)) == Slot(f, i, SlotOf(last));
        NotShared(f, i, SlotOf(bn), i, SlotOf(last));
      }
    }
  }

  lemma NotShared(f: Fs, i: nat, s: nat, j: nat, t: nat)
    requires Good(f) && Slot(f, i, s) != 0 && Slot(f, i, s) == Slot(f, j, t)
    ensures i == j && s == t
  {
    hide Slot;
  }

  /** The blocks that hold some of the bytes of a write are all listed. */
  lemma WriteHas(f: Fs, i: nat, off: nat, to: nat, us: seq<Update>)
    requires Good(f) && off < to && Covers([], us, f, i, off, to) && forall k :: 0 <= k < |us| ==> us[k].bno != 0
    ensures var s := Image(f, i, off / BSIZE, Span(off, to)); |s| == Span(off, to) && forall b: nat :: b in s ==> b != 0 && b in Listed(us)
  {
    hide Slot, Good, Listed;
    var n, from := Span(off, to), off / BSIZE;
    forall bn: nat | from <= bn < from + n
      ensures Slot(f, i, SlotOf(bn)) != 0 && Slot(f, i, SlotOf(bn)) in Listed(us)
    {
      assert Spans(off, to, bn);
      var k :| 0 <= k < |us| && us[k].bno == Slot(f, i, SlotOf(bn));
      ListedHas(us, us[k].bno);
    }
    ImageExact(f, i, from, n);
    forall b: nat | b in Image(f, i, from, n)
      ensures b != 0 && b in Listed(us)
    {
      ImageOnly(f, i, from, n, b);
    }
  }

  /** A write lists every block that holds some of its bytes. */
  lemma WriteListsAll(f: Fs, i: nat, off: nat, to: nat, us: seq<Update>)
    requires Good(f) && Covers([], us, f, i, off, to) && forall k :: 0 <= k < |us| ==> us[k].bno != 0
    ensures Span(off, to) <= |Listed(us)|
  {
    hide Good, Listed, Covers, Image;
    if off < to {
      WriteHas(f, i, off, to, us);
      ListedDistinct(us);
      DistinctCount(Listed(us));
      SubsetSize(Image(f, i, off / BSIZE, Span(off, to)), SetOf(Listed(us)));
    }
  }

  lemma ImagesApart(f: Fs, i: nat, from: nat, n: nat, j: nat, from': nat, m: nat)
    requires Good(f) && i != j && forall b: nat :: b in Image(f, i, from, n) ==> b != 0
    ensures Image(f, i, from, n) !! Image(f, j, from', m)
  {
    hide Slot, Good, Image;
    forall b: nat | b in Image(f, i, from, n) && b in Image(f, j, from', m)
      ensures false
    {
      ImageOnly(f, i, from, n, b);
      ImageOnly(f, j, from', m, b);
      var x: nat, y: nat :| Slot(f, i, SlotOf(x)) == b == Slot(f, j, SlotOf(y));
      NotShared(f, i, SlotOf(x), j, SlotOf(y));
    }
  }

  lemma {:induction false} BitmapSize(sb: Superblock)
    ensures |Bitmap(sb)| == sb.size / BPB + 1
  {
    Interval(sb.bmapstart, Meta(sb), Bitmap(sb));
  }

  lemma {:induction false} Interval(a: nat, b: nat, s: set<nat>)
    requires a <= b && forall x: nat :: x in s <==> a <= x < b
    ensures |s| == b - a
    decreases b - a
  {
    if a < b {
      Interval(a, b - 1, s - {b - 1});
    } else {
      assert s == {};
    }
  }

  /** Blocks that a write lists at most: those that hold the bytes, the indirect block, the bitmap and the inode's. */
  function WriteBound(sb: Superblock, off: nat, to: nat): nat {
    Span(off, to) + 1 + (sb.size / BPB + 1) + 1
  }

  lemma WriteLists(sb: Superblock, f: Fs, i: nat, off: nat, to: nat, us: seq<Update>)
    requires Adds([], us, Bitmap(sb) + BlocksOf(f, i, off, to) + {IBLOCK(i, sb)})
    ensures |Listed(us)| <= WriteBound(sb, off, to)
  {
    SpanSize(f, i, off, to, Span(off, to));
    BitmapSize(sb);
    ListedBound(us, Bitmap(sb) + BlocksOf(f, i, off, to) + {IBLOCK(i, sb)});
  }

  /** itrunc lists bitmap blocks and the block of the inode, however many blocks it frees. */
  lemma TruncateLists(sb: Superblock, i: nat, us: seq<Update>)
    requires us != [] && Adds([], us[..|us| - 1], Bitmap(sb)) && us[|us| - 1].bno == IBLOCK(i, sb)
    ensures |Listed(us)| <= sb.size / BPB + 2
  {
    BitmapSize(sb);
    forall k | 0 <= k < |us|
      ensures us[k].bno in Bitmap(sb) + {IBLOCK(i, sb)}
    {
      assert k < |us| - 1 ==> us[..|us| - 1][k] == us[k];
    }
    ListedBound(us, Bitmap(sb) + {IBLOCK(i, sb)});
  }

  /** The pieces in which filewrite writes are small enough for a log by themselves; but a full one is beyond MAXOPBLOCKS. */
  lemma ChunkLists(sb: Superblock, off: nat, n: nat)
    requires n <= CHUNK && sb.size < BPB
    ensures WriteBound(sb, off, off + n) <= 17 && (n == CHUNK ==> Span(off, off + n) >= 13 > MAXOPBLOCKS)
  {
  }

  /** The calls of a write of a full piece to file i of f, and the blocks that hold its bytes. */
  ghost predicate WritesChunk(f: Fs, us: seq<Update>, i: nat, off: nat) {
    Covers([], us, f, i, off, off + CHUNK) && forall k :: 0 <= k < |us| ==> us[k].bno != 0
  }

  ghost function ChunkBlocks(f: Fs, i: nat, off: nat): set<nat> {
    Image(f, i, off / BSIZE, Span(off, off + CHUNK))
  }

  lemma ChunkHas(f: Fs, us: seq<Update>, i: nat, off: nat)
    requires Good(f) && WritesChunk(f, us, i, off)
    ensures |ChunkBlocks(f, i, off)| >= 13 && forall b: nat :: b in ChunkBlocks(f, i, off) ==> b != 0 && b in Listed(us)
  {
    hide Good, Listed, Image, Covers;
    WriteHas(f, i, off, off + CHUNK, us);
  }

  /** Three full pieces for different files, which begin_op admits together, have a run into the panic of log_write on any log. */
  lemma ChunksPanic(s0: State, ops: seq<Operation>, f: Fs, files: seq<nat>, offs: seq<nat>) returns (acts: seq<Action>, k: nat)
    requires |ops| == |files| == |offs| == 3 && Distinct(Processes(ops)) && Distinct(files) && Init(s0) && Good(f)
    requires forall j :: 0 <= j < 3 ==> Booted(s0, ops[j]) && WritesChunk(f, ops[j].updates, files[j], offs[j])
    ensures k < |Updates(ops)| && Reaches(s0, acts, Crowd(Processes(ops), Turns(ops)[..k], Updates(ops)[..k]))
    ensures var e, i := End(s0, acts), Turns(ops)[k];
            i < |e.procs| && e.procs[i].InOp? && !e.procs[i].checked && LogWritePanics(e)
  {
    hide Good, Listed, Image, Init, Reaches, Updates, Turns, Crowd, Booted;
    forall j | 0 <= j < 3
      ensures var s := ChunkBlocks(f, files[j], offs[j]); |s| >= 13 && forall b: nat :: b in s ==> b != 0 && b in Listed(ops[j].updates)
    {
      ChunkHas(f, ops[j].updates, files[j], offs[j]);
    }
    forall i, j | 0 <= i < j < 3
      ensures ChunkBlocks(f, files[i], offs[i]) !! ChunkBlocks(f, files[j], offs[j])
    {
      ImagesApart(f, files[i], offs[i] / BSIZE, Span(offs[i], offs[i] + CHUNK), files[j], offs[j] / BSIZE, Span(offs[j], offs[j] + CHUNK));
    }
    var a, b, c := ChunkBlocks(f, files[0], offs[0]), ChunkBlocks(f, files[1], offs[1]), ChunkBlocks(f, files[2], offs[2]);
    assert |a + b + c| == |a| + |b| + |c|;
    forall x: nat | x in a + b + c
      ensures ListedBySome(ops, x)
    {
      assert x in Listed(ops[0].updates) || x in Listed(ops[1].updates) || x in Listed(ops[2].updates);
    }
    acts, k := TogetherPanic(s0, ops, a + b + c);
  }

  /**
   A write as one operation. A crash leaves the old or the new file system; and on a log with
   room for the blocks that it lists the operation can be completed and committed. The new file
   system is good exactly if the file grew or the inode already had an address for every block
   written, and its files are then the old ones with the bytes written over.
   */
  method WriteOperation(v: Volume, ip: Inode, src: seq<Byte>, off: Word, ghost i: nat) returns (r: Io)
    requires v.Valid(ip) && v.Agrees(ip) && v.log == [] && |src| < TWO32
    modifies v, ip
    ensures Good(old(v.OnDisk())) && v.Valid(ip)
    ensures r.Failed? <==> old(v.WriteRefused(ip, off, |src|))
    ensures r.Handed? <==> old(ip.typ) == T_DEV && !r.Failed?
    ensures r.OutOfBlocks? <==>
              !r.Failed? && !r.Handed? && Free(old(v.OnDisk())) < Missing(old(v.OnDisk()), ip.inum, off, off + |src|)
    ensures !r.OutOfRange? && (r.Done? ==> r.n == |src|)
    ensures r.Done? ==> (Good(v.OnDisk()) <==>
              off + |src| > old(ip.size) || Addressed(old(v.OnDisk()), ip.inum, off, off + |src|))
    ensures r.Done? && Good(v.OnDisk()) ==> Wrote(old(v.OnDisk()), v.OnDisk(), ip.inum, off, src)
    ensures r.Done? ==> Atomic(v.sb, old(v.disk), Operation(i, v.log), old(v.OnDisk()), v.OnDisk())
    ensures r.Done? ==> Span(off, off + |src|) <= |Listed(v.log)| <= WriteBound(v.sb, off, off + |src|)
    ensures var n := WriteBound(v.sb, off, off + |src|);
            r.Done? && n < NBUF ==> Lasting(v.sb, old(v.disk), Operation(i, v.log), n, v.OnDisk())
  {
    hide Abs, Good, GoodSb, Apply, Overlaid, Addressed, Atomic, Wrote, KeepsAddrs, Mapped;
    hide Lasting, BlocksOf, Bitmap, WriteBound, Adds, Missing, Clear;
    assert v.disk == v.start by {
      ApplyNone(v.start);
    }
    ghost var f := v.OnDisk();
    assert v.With(ip) == f;
    r := v.Writei(ip, src, off);
    if r.Done? {
      ghost var g := v.With(ip);
      OperationIsAtomic(v.sb, v.start, Operation(i, v.log));
      WriteLists(v.sb, g, ip.inum, off, off + |src|, v.log);
      InodesAboveZero(v.sb, v.disk);
      WriteListsAll(g, ip.inum, off, off + |src|, v.log);
      if WriteBound(v.sb, off, off + |src|) < NBUF {
        OperationLasts(v.sb, v.start, Operation(i, v.log), WriteBound(v.sb, off, off + |src|));
      }
      if v.Agrees(ip) {
        assert g == v.OnDisk();
        WroteFiles(f, g, ip.inum, off, src);
      } else {
        OneInode(v.OnDisk().inodes, g.inodes, ip.inum);
        Orphaned(v.OnDisk(), g, ip.inum);
      }
    }
  }

  lemma InodesAboveZero(sb: Superblock, d: Disk)
    requires GoodSb(sb, d)
    ensures sb.inodestart > 0
  {
  }

  lemma ApplyNone(d: Disk)
    ensures Apply(d, []) == d
  {
  }

  /**
   Truncation as one operation: a crash leaves the old files, or these with ip's empty. It lists
   the bitmap and one inode block at most, so that it can be completed and committed.
   */
  method TruncateOperation(v: Volume, ip: Inode, ghost i: nat)
    requires v.Valid(ip) && v.Agrees(ip) && v.log == []
    modifies v, ip
    ensures Good(old(v.OnDisk())) && v.Valid(ip) && v.Agrees(ip) && Good(v.OnDisk())
    ensures forall j: nat :: j < v.sb.ninodes ==>
              Contents(v.OnDisk(), j) == if j == ip.inum then [] else old(Contents(v.OnDisk(), j))
    ensures Atomic(v.sb, old(v.disk), Operation(i, v.log), old(v.OnDisk()), v.OnDisk())
    ensures var n := v.sb.size / BPB + 2;
            n < NBUF ==> Lasting(v.sb, old(v.disk), Operation(i, v.log), n, v.OnDisk())
  {
    hide Abs, Good, GoodSb, Apply, Atomic, Lasting, Bitmap, Adds;
    assert v.disk == v.start by {
      ApplyNone(v.start);
    }
    ghost var f := v.OnDisk();
    assert v.With(ip) == f;
    v.Itrunc(ip);
    assert v.With(ip) == v.OnDisk();
    TruncatedFiles(f, v.OnDisk(), ip.inum);
    OperationIsAtomic(v.sb, v.start, Operation(i, v.log));
    TruncateLists(v.sb, ip.inum, v.log);
    if v.sb.size / BPB + 2 < NBUF {
      OperationLasts(v.sb, v.start, Operation(i, v.log), v.sb.size / BPB + 2);
    }
  }

  lemma TruncatedFiles(f: Fs, g: Fs, i: nat)
    requires i < |f.inodes| == |g.inodes| && g == f.(bits := g.bits, inodes := f.inodes[i := g.inodes[i]]) && g.inodes[i].size == 0
    ensures forall j: nat :: j < |f.inodes| ==> Contents(g, j) == if j == i then [] else Contents(f, j)
  {
    forall j: nat | j < |f.inodes| && j != i
      ensures Contents(g, j) == Contents(f, j)
    {
      hide WordAt;
      assert forall p: nat :: Raw(g, j, p) == Raw(f, j, p);
    }
  }
}
