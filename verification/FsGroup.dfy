/**
 Writes of several processes to different files at once (fs.c, log.c, file.c): the steps of writei
 between begin_op and end_op, each the change of one buffer and its log_write, in every
 interleaving, as the history of a run of the log; and what a crash and recovery make of the files.
 */
module FsGroup {
  import opened Blocks
  import opened FsModel
  import opened FsImage
  import opened LogCrash
  import opened GroupCommit
  import opened FsSteps
  import opened Histories
  import opened FileSystem
  import opened Operations
  import FsCrash

  // ------------------------------------------------------------- invariant

  predicate Pending(w: Job) {
    w.stage.Marked? || w.stage.Zeroed?
  }

  predicate Has(w: Job, b: nat) {
    Pending(w) && w.stage.b == b
  }

  predicate Closed(w: Job) {
    w.stage == Stored || w.stage == Over
  }

  /** The jobs are writes within the bounds that writei checks, to different files. */
  ghost predicate GoodJobs(f0: Fs, jobs: seq<Job>) {
    && (forall p: nat :: p < |jobs| ==> GoodJob(f0, jobs[p]))
    && (forall p: nat, q: nat :: p < q < |jobs| ==> jobs[p].i != jobs[q].i)
  }

  ghost predicate GoodJob(f0: Fs, w: Job) {
    && w.i < |f0.inodes| && w.off <= f0.inodes[w.i].size && w.off + |w.data| <= MAXFILE * BSIZE
    && w.done <= |w.data| && (w.stage == Waiting ==> w.done == 0) && (Closed(w) ==> w.done == |w.data|)
    && (Pending(w) ==> w.done < |w.data|)
  }

  /** The block that a job has taken is nobody's, and the slot that it is for is empty. */
  ghost predicate PendingOk(f: Fs, w: Job)
    requires Pending(w)
  {
    && IsData(f, w.stage.b) && !Owns(f, w.stage.b)
    && w.stage.t == Wanted(f, w.i, At(w) / BSIZE) && Slot(f, w.i, w.stage.t) == 0
    && (w.stage.Zeroed? ==> f.blocks[w.stage.b] == ZeroBlock())
  }

  ghost predicate Reserves(f: Fs, jobs: seq<Job>) {
    && (forall p: nat :: p < |jobs| && Pending(jobs[p]) ==> PendingOk(f, jobs[p]))
    && (forall p: nat, q: nat :: p < q < |jobs| && Pending(jobs[p]) && Pending(jobs[q]) ==> jobs[p].stage.b != jobs[q].stage.b)
  }

  ghost predicate SomebodyHas(jobs: seq<Job>, b: nat) {
    exists p: nat :: p < |jobs| && Has(jobs[p], b)
  }

  /** A bit is set iff the block is metadata, or a file's, or taken by a job for a file. */
  ghost predicate Accounts(f: Fs, jobs: seq<Job>) {
    forall b: nat :: b < |f.bits| ==> (f.bits[b] <==> b < f.meta || Owns(f, b) || SomebodyHas(jobs, b))
  }

  /** The size of a job's file, and its inode on disk. */
  function SizeOf(n: Dinode, w: Job): nat {
    if Closed(w) then Max(n.size, w.off + |w.data|) else n.size
  }

  /** What a job has made of its file, in memory and on disk. */
  ghost predicate JobOk(f0: Fs, f: Fs, on: seq<Dinode>, w: Job)
    requires GoodJob(f0, w) && |f0.inodes| == |f.inodes| == |on|
  {
    var n0, n := f0.inodes[w.i], f.inodes[w.i];
    && n == n0.(size := SizeOf(n0, w), addrs := n.addrs)
    && (w.stage == Waiting ==> n == n0)
    && (forall x: nat :: Raw(f, w.i, x) == if w.off <= x < w.off + w.done then w.data[x - w.off] else Raw(f0, w.i, x))
    && (Addressed(f0, w.i, w.off, w.off + |w.data|) ==> n.addrs == n0.addrs)
    && KeepsAddrs(n0.addrs, n.addrs) && MappedRange(f, w.i, w.off, w.off + w.done)
    && on[w.i] == if Closed(w) && w.off + |w.data| > n0.size then n else n0
  }

  /** No job writes file j. */
  ghost predicate Untouched(jobs: seq<Job>, j: nat) {
    forall p: nat :: p < |jobs| ==> jobs[p].i != j
  }

  ghost predicate OthersOk(f0: Fs, f: Fs, on: seq<Dinode>, jobs: seq<Job>)
    requires |f0.inodes| == |f.inodes| == |on|
  {
    forall j: nat :: j < |f.inodes| && Untouched(jobs, j) ==>
      f.inodes[j] == f0.inodes[j] == on[j] && forall x: nat :: Raw(f, j, x) == Raw(f0, j, x)
  }

  /** A process is in an operation exactly if one of its writes is under way, and then only one is. */
  ghost predicate Replays(d0: Disk, x: Files) {
    && Replay(d0, x.events) == x.d
    && (forall i: nat :: i in Open(x.events) <==> !Idle(x.jobs, i))
    && (forall p: nat, q: nat :: p < q < |x.jobs| && Inside(x.jobs[p]) && Inside(x.jobs[q]) ==> x.jobs[p].proc != x.jobs[q].proc)
  }

  ghost predicate Sized(f0: Fs, x: Files) {
    && GoodSb(x.sb, x.d) && |x.mem| == x.sb.ninodes == |f0.inodes| && GoodJobs(f0, x.jobs)
    && Meta(x.sb) == f0.meta && x.sb.size == |f0.blocks|
  }

  ghost predicate Sound(f0: Fs, d0: Disk, x: Files) {
    && Sized(f0, x) && Replays(d0, x)
    && var f := Live(x);
       && Shape(f) && Exclusive(f) && Reserves(f, x.jobs) && Accounts(f, x.jobs)
       && (forall p: nat :: p < |x.jobs| ==> JobOk(f0, f, Abs(x.sb, x.d).inodes, x.jobs[p]))
       && OthersOk(f0, f, Abs(x.sb, x.d).inodes, x.jobs)
  }

  /** Before anything has begun. */
  ghost predicate Start(x: Files) {
    && GoodSb(x.sb, x.d) && Good(Abs(x.sb, x.d)) && x.mem == Abs(x.sb, x.d).inodes && x.events == []
    && GoodJobs(Abs(x.sb, x.d), x.jobs) && forall p: nat :: p < |x.jobs| ==> x.jobs[p].stage == Waiting
  }

  lemma StartIsSound(x: Files)
    requires Start(x)
    ensures Sound(Abs(x.sb, x.d), x.d, x)
  {
    hide Abs, Exclusive, Slot, Raw;
    assert Live(x) == Abs(x.sb, x.d);
    forall b: nat | b < |Live(x).bits|
      ensures Live(x).bits[b] <==> b < Live(x).meta || Owns(Live(x), b) || SomebodyHas(x.jobs, b)
    {
      assert b in Owned(Live(x)) <==> Owns(Live(x), b);
    }
  }

  // ------------------------------------------------------------- one job's step

  /** File j is the same in f and g. */
  ghost predicate SameFile(f: Fs, g: Fs, j: nat) {
    && j < |f.inodes| == |g.inodes| && g.inodes[j] == f.inodes[j]
    && (forall t: nat :: Slot(g, j, t) == Slot(f, j, t)) && (forall x: nat :: Raw(g, j, x) == Raw(f, j, x))
  }

  /** A step of write p changes its own file only, and keeps what is said of the whole. */
  ghost predicate OwnStep(f0: Fs, x: Files, p: nat, y: Files) {
    && p < |x.jobs| == |y.jobs| && Sized(f0, x) && Sized(f0, y) && y.jobs == x.jobs[p := y.jobs[p]] && SameCall(x.jobs[p], y.jobs[p])
    && (forall j: nat :: j < |x.mem| && j != x.jobs[p].i ==>
          SameFile(Live(x), Live(y), j) && Abs(y.sb, y.d).inodes[j] == Abs(x.sb, x.d).inodes[j])
  }

  lemma OthersKept(f0: Fs, x: Files, p: nat, y: Files)
    requires OwnStep(f0, x, p, y) && OthersOk(f0, Live(x), Abs(x.sb, x.d).inodes, x.jobs)
    requires forall q: nat :: q < |x.jobs| ==> JobOk(f0, Live(x), Abs(x.sb, x.d).inodes, x.jobs[q])
    requires JobOk(f0, Live(y), Abs(y.sb, y.d).inodes, y.jobs[p])
    ensures OthersOk(f0, Live(y), Abs(y.sb, y.d).inodes, y.jobs)
    ensures forall q: nat :: q < |y.jobs| ==> JobOk(f0, Live(y), Abs(y.sb, y.d).inodes, y.jobs[q])
  {
    hide Abs, Slot, Raw, GoodSb, Addressed, KeepsAddrs;
    forall q: nat | q < |y.jobs|
      ensures JobOk(f0, Live(y), Abs(y.sb, y.d).inodes, y.jobs[q])
    {
      if q != p {
        assert JobOk(f0, Live(x), Abs(x.sb, x.d).inodes, x.jobs[q]);
        assert y.jobs[q].i != x.jobs[p].i;
        assert SameFile(Live(x), Live(y), y.jobs[q].i);
      }
    }
    forall j: nat | j < |y.mem| && Untouched(y.jobs, j)
      ensures Live(y).inodes[j] == f0.inodes[j] == Abs(y.sb, y.d).inodes[j] && forall x: nat :: Raw(Live(y), j, x) == Raw(f0, j, x)
    {
      assert forall q: nat :: q < |x.jobs| ==> x.jobs[q].i == y.jobs[q].i;
      assert Untouched(x.jobs, j) && SameFile(Live(x), Live(y), j);
    }
  }

  lemma Assemble(f0: Fs, d0: Disk, x: Files, p: nat, y: Files)
    requires Sound(f0, d0, x) && OwnStep(f0, x, p, y) && Replays(d0, y)
    requires Shape(Live(y)) && Exclusive(Live(y)) && Reserves(Live(y), y.jobs) && Accounts(Live(y), y.jobs)
    requires JobOk(f0, Live(y), Abs(y.sb, y.d).inodes, y.jobs[p])
    ensures Sound(f0, d0, y)
  {
    hide Abs, Slot, Raw, GoodSb, JobOk, OthersOk, Reserves, Accounts, Replays, Exclusive;
    OthersKept(f0, x, p, y);
  }

  lemma ReplaysEvent(d0: Disk, x: Files, y: Files, p: nat, ev: Event)
    requires Replays(d0, x) && p < |x.jobs| == |y.jobs| && y.jobs == x.jobs[p := y.jobs[p]]
    requires y.events == x.events + [ev] && ev.i == x.jobs[p].proc == y.jobs[p].proc
    requires match ev
             case Begun(i) => Idle(x.jobs, i) && Inside(y.jobs[p]) && y.d == x.d
             case Ended(_) => Inside(x.jobs[p]) && !Inside(y.jobs[p]) && y.d == x.d
             case Logged(_, b, data) => Inside(x.jobs[p]) && Inside(y.jobs[p]) && b < |x.d| && y.d == x.d[b := data]
    ensures Replays(d0, y)
  {
    HistorySnoc(d0, x.events, ev);
    forall i: nat
      ensures Idle(y.jobs, i) <==> if i == ev.i then !Inside(y.jobs[p]) else Idle(x.jobs, i)
    {
      BusyAfter(x.jobs, p, y.jobs[p], i);
    }
  }

  /** Who is busy after a step of write p. */
  lemma BusyAfter(jobs: seq<Job>, p: nat, w: Job, i: nat)
    requires p < |jobs| && w.proc == jobs[p].proc && (Inside(w) || Inside(jobs[p]))
    requires forall q: nat :: q < |jobs| && q != p && Inside(jobs[q]) ==> jobs[q].proc != w.proc
    ensures Idle(jobs[p := w], i) <==> if i == w.proc then !Inside(w) else Idle(jobs, i)
  {
    var after := jobs[p := w];
    assert after[p] == w;
    assert forall q: nat :: q < |jobs| && q != p ==> after[q] == jobs[q];
  }

  lemma ReplaysQuiet(d0: Disk, x: Files, y: Files, p: nat)
    requires Replays(d0, x) && p < |x.jobs| == |y.jobs| && y.jobs == x.jobs[p := y.jobs[p]]
    requires y.events == x.events && y.d == x.d && Inside(x.jobs[p]) && Inside(y.jobs[p]) && y.jobs[p].proc == x.jobs[p].proc
    ensures Replays(d0, y)
  {
    forall i: nat
      ensures Idle(y.jobs, i) <==> Idle(x.jobs, i)
    {
      BusyAfter(x.jobs, p, y.jobs[p], i);
    }
  }

  // ------------------------------------ what is taken, when nothing is taken or given

  lemma SameOwners(f: Fs, g: Fs)
    requires Shape(f) && Exclusive(f) && SameSlots(f, g) && g.meta == f.meta && |g.blocks| == |f.blocks| && |g.bits| == |f.bits|
    ensures Shape(g) && Exclusive(g) && forall b: nat :: Owns(g, b) <==> Owns(f, b)
  {
    SameSlotsExclusive(f, g);
    forall b: nat
      ensures Owns(g, b) <==> Owns(f, b)
    {
      assert b in Owned(g) <==> b in Owned(f);
    }
  }

  ghost predicate SameUnowned(f: Fs, g: Fs) {
    |g.blocks| == |f.blocks| && forall b: nat :: b < |f.blocks| && !Owns(f, b) ==> g.blocks[b] == f.blocks[b]
  }

  lemma ReservesKept(f: Fs, g: Fs, jobs: seq<Job>, p: nat, w: Job)
    requires Reserves(f, jobs) && Accounts(f, jobs) && p < |jobs| && !Pending(jobs[p]) && !Pending(w)
    requires SameSlots(f, g) && g.meta == f.meta && g.bits == f.bits && SameUnowned(f, g)
    requires forall b: nat :: Owns(g, b) <==> Owns(f, b)
    ensures Reserves(g, jobs[p := w]) && Accounts(g, jobs[p := w])
  {
    hide Slot, Owns;
    var more := jobs[p := w];
    forall q: nat | q < |more| && Pending(more[q])
      ensures PendingOk(g, more[q])
    {
      assert more[q] == jobs[q] && PendingOk(f, jobs[q]);
    }
    forall b: nat
      ensures SomebodyHas(more, b) <==> SomebodyHas(jobs, b)
    {
      if SomebodyHas(jobs, b) {
        var q: nat :| q < |jobs| && Has(jobs[q], b);
        assert Has(more[q], b);
      }
      if SomebodyHas(more, b) {
        var q: nat :| q < |more| && Has(more[q], b);
        assert Has(jobs[q], b);
      }
    }
  }

  // -------------------------------------------------- begin_op, end_op

  lemma EdgeReplays(d0: Disk, x: Files, m: Move, y: Files)
    requires Replays(d0, x) && Next(x, m, y) && (m.Begin? || m.Finish?)
    ensures Replays(d0, y)
  {
    hide Replays, Idle;
    var i := x.jobs[m.p].proc;
    ReplaysEvent(d0, x, y, m.p, if m.Begin? then Begun(i) else Ended(i));
  }

  lemma EdgeStep(f0: Fs, d0: Disk, x: Files, m: Move, y: Files)
    requires Sound(f0, d0, x) && Next(x, m, y) && (m.Begin? || m.Finish?)
    ensures Sound(f0, d0, y)
  {
    hide Abs, Slot, Raw, Exclusive, GoodSb, Owns, Replays, Idle, Addressed, KeepsAddrs, MappedRange;
    var p := m.p;
    EdgeReplays(d0, x, m, y);
    assert Live(y) == Live(x);
    assert GoodJob(f0, x.jobs[p]) && JobOk(f0, Live(x), Abs(x.sb, x.d).inodes, x.jobs[p]);
    ReservesKept(Live(x), Live(x), x.jobs, p, y.jobs[p]);
    Assemble(f0, d0, x, p, y);
  }

  // -------------------------------------------------------------- balloc

  /** A bit set for write p: its block is nobody's, and no other write has taken it. */
  lemma TakeOne(f: Fs, g: Fs, jobs: seq<Job>, p: nat, w: Job)
    requires Shape(f) && Reserves(f, jobs) && Accounts(f, jobs) && p < |jobs| && !Pending(jobs[p]) && w.stage.Marked?
    requires var b := w.stage.b; b < |f.bits| && !f.bits[b] && g == f.(bits := f.bits[b := true])
    requires w.stage.t == Wanted(f, w.i, At(w) / BSIZE) && Slot(f, w.i, w.stage.t) == 0
    ensures Reserves(g, jobs[p := w]) && Accounts(g, jobs[p := w])
  {
    var b, more := w.stage.b, jobs[p := w];
    assert !Owns(f, b) && b >= f.meta && !SomebodyHas(jobs, b);
    SameSlotsBits(f, g);
    hide Slot, Owns;
    forall q: nat | q < |more| && Pending(more[q])
      ensures PendingOk(g, more[q]) && (q != p ==> more[q].stage.b != b)
    {
      if q != p {
        assert PendingOk(f, jobs[q]) && Has(jobs[q], jobs[q].stage.b);
      }
    }
    forall c: nat
      ensures SomebodyHas(more, c) <==> SomebodyHas(jobs, c) || c == b
    {
      if SomebodyHas(jobs, c) {
        var q: nat :| q < |jobs| && Has(jobs[q], c);
        assert Has(more[q], c);
      }
      if SomebodyHas(more, c) {
        var q: nat :| q < |more| && Has(more[q], c);
        assert q != p ==> Has(jobs[q], c);
      }
      assert Has(more[p], b);
    }
  }

  /** Slots do not depend on the bitmap. */
  lemma SameSlotsBits(f: Fs, g: Fs)
    requires g == f.(bits := g.bits)
    ensures SameSlots(f, g) && SameRaw(f, g) && forall b: nat :: Owns(g, b) <==> Owns(f, b)
  {
    assert SameSlots(f, g);
    forall b: nat
      ensures Owns(g, b) <==> Owns(f, b)
    {
      if Owns(f, b) {
        var i: nat, s: nat :| Slot(f, i, s) == b && b != 0;
        assert Slot(g, i, s) == b;
      }
      if Owns(g, b) {
        var i: nat, s: nat :| Slot(g, i, s) == b && b != 0;
        assert Slot(f, i, s) == b;
      }
    }
  }

  /** Slots and bytes stay, and so do the inodes: every file is the same. */
  lemma AllSame(f: Fs, g: Fs)
    requires SameSlots(f, g) && SameRaw(f, g) && g.inodes == f.inodes
    ensures forall j: nat :: j < |f.inodes| ==> SameFile(f, g, j)
  {
    hide Slot, Raw;
  }

  /** A job whose file is the same, and which has not moved on. */
  lemma JobSame(f0: Fs, f: Fs, g: Fs, on: seq<Dinode>, w: Job, w': Job)
    requires GoodJob(f0, w) && GoodJob(f0, w') && |f0.inodes| == |f.inodes| == |g.inodes| == |on|
    requires JobOk(f0, f, on, w) && g.inodes[w.i] == f.inodes[w.i] && forall x: nat :: Raw(g, w.i, x) == Raw(f, w.i, x)
    requires forall t: nat :: Slot(f, w.i, t) != 0 ==> Slot(g, w.i, t) != 0
    requires w' == w.(stage := w'.stage) && Closed(w') == Closed(w) && w'.stage != Waiting
    ensures JobOk(f0, g, on, w')
  {
    hide Raw, Slot, Addressed, KeepsAddrs;
  }

  lemma MarkKeeps(f0: Fs, d0: Disk, x: Files, p: nat, b: nat, y: Files)
    requires Sound(f0, d0, x) && p < |x.jobs| && MarkStep(x, p, b, y)
    ensures Sound(f0, d0, y)
  {
    hide Abs, Slot, Raw, Exclusive, Owns, Addressed, KeepsAddrs, PutBit, JobOk, Replays;
    var w, f := x.jobs[p], Live(x);
    PutBitAbs(x.sb, x.d, b, true);
    assert Live(y) == f.(bits := f.bits[b := true]);
    ReplaysEvent(d0, x, y, p, Event.Logged(x.jobs[p].proc, BBLOCK(b, x.sb), PutBit(x.d[BBLOCK(b, x.sb)], b, true)));
    SameSlotsBits(f, Live(y));
    SameOwners(f, Live(y));
    AllSame(f, Live(y));
    TakeOne(f, Live(y), x.jobs, p, y.jobs[p]);
    JobSame(f0, f, Live(y), Abs(x.sb, x.d).inodes, w, y.jobs[p]);
    Assemble(f0, d0, x, p, y);
  }

  /** Zeroing a block that write p has taken. */
  lemma ZeroOne(f: Fs, g: Fs, jobs: seq<Job>, p: nat, w: Job)
    requires Shape(f) && Exclusive(f) && Reserves(f, jobs) && Accounts(f, jobs) && p < |jobs| && jobs[p].stage.Marked?
    requires w == jobs[p].(stage := Zeroed(jobs[p].stage.b, jobs[p].stage.t))
    requires var b := jobs[p].stage.b; b < |f.blocks| && g == f.(blocks := f.blocks[b := ZeroBlock()])
    ensures Shape(g) && Exclusive(g) && SameSlots(f, g) && SameRaw(f, g)
    ensures Reserves(g, jobs[p := w]) && Accounts(g, jobs[p := w])
  {
    var b, more := jobs[p].stage.b, jobs[p := w];
    assert PendingOk(f, jobs[p]);
    assert Has(jobs[p], b) && SomebodyHas(jobs, b);
    assert g == Allocate(f, b);
    AllocateKeeps(f, b);
    SameOwners(f, g);
    hide Slot, Owns, Raw, Exclusive;
    forall q: nat | q < |more| && Pending(more[q])
      ensures PendingOk(g, more[q])
    {
      assert PendingOk(f, jobs[q]);
    }
    forall c: nat
      ensures SomebodyHas(more, c) <==> SomebodyHas(jobs, c)
    {
      if SomebodyHas(jobs, c) {
        var q: nat :| q < |jobs| && Has(jobs[q], c);
        assert Has(more[q], c);
      }
      if SomebodyHas(more, c) {
        var q: nat :| q < |more| && Has(more[q], c);
        assert Has(jobs[q], c);
      }
    }
  }

  lemma ZeroKeeps(f0: Fs, d0: Disk, x: Files, p: nat, y: Files)
    requires Sound(f0, d0, x) && p < |x.jobs| && ZeroStep(x, p, y)
    ensures Sound(f0, d0, y)
  {
    hide Abs, Slot, Raw, Exclusive, Owns, Addressed, KeepsAddrs, JobOk, Replays;
    var w, f, b := x.jobs[p], Live(x), x.jobs[p].stage.b;
    assert PendingOk(f, w);
    PutBlockAbs(x.sb, x.d, b, ZeroBlock());
    assert Live(y) == f.(blocks := f.blocks[b := ZeroBlock()]);
    ReplaysEvent(d0, x, y, p, Event.Logged(x.jobs[p].proc, b, ZeroBlock()));
    ZeroOne(f, Live(y), x.jobs, p, y.jobs[p]);
    AllSame(f, Live(y));
    JobSame(f0, f, Live(y), Abs(x.sb, x.d).inodes, w, y.jobs[p]);
    Assemble(f0, d0, x, p, y);
  }

  // ---------------------------------------------------- bmap's assignment

  /** The block that write p has taken goes into its slot. */
  lemma GiveOne(f: Fs, g: Fs, jobs: seq<Job>, p: nat, w: Job)
    requires Reserves(f, jobs) && Accounts(f, jobs) && p < |jobs| && jobs[p].stage.Zeroed? && w == jobs[p].(stage := Looping)
    requires forall q: nat :: q < |jobs| && q != p ==> jobs[q].i != jobs[p].i
    requires SlotsWith(f, g, jobs[p].i, jobs[p].stage.t, jobs[p].stage.b) && Owned(g) == Owned(f) + iset{jobs[p].stage.b}
    requires g.meta == f.meta && g.bits == f.bits && SameUnowned(f, g)
    ensures Reserves(g, jobs[p := w]) && Accounts(g, jobs[p := w])
  {
    hide Slot, Owns;
    var b, more := jobs[p].stage.b, jobs[p := w];
    forall c: nat
      ensures Owns(g, c) <==> Owns(f, c) || c == b
    {
      assert c in Owned(g) <==> c in Owned(f) || c == b;
    }
    forall q: nat | q < |more| && Pending(more[q])
      ensures PendingOk(g, more[q])
    {
      assert PendingOk(f, jobs[q]) && jobs[q].i != jobs[p].i && jobs[q].stage.b != b;
    }
    forall c: nat
      ensures SomebodyHas(jobs, c) <==> SomebodyHas(more, c) || c == b
    {
      if SomebodyHas(jobs, c) {
        var q: nat :| q < |jobs| && Has(jobs[q], c);
        assert q != p ==> Has(more[q], c);
      }
      if SomebodyHas(more, c) {
        var q: nat :| q < |more| && Has(more[q], c);
        assert Has(jobs[q], c);
      }
      assert Has(jobs[p], b);
    }
  }

  /** An address is only given where the inode had none, so that not all of the range was addressed. */
  lemma NewAddress(f0: Fs, f: Fs, w: Job)
    requires GoodJob(f0, w) && |f.inodes| == |f0.inodes| && Pending(w) && PendingOk(f, w) && w.stage.t <= NDIRECT
    requires KeepsAddrs(f0.inodes[w.i].addrs, f.inodes[w.i].addrs)
    ensures f0.inodes[w.i].addrs[w.stage.t] == 0 && !Addressed(f0, w.i, w.off, w.off + |w.data|)
  {
    assert w.off <= At(w) < w.off + |w.data|;
    assert AddrOf(f0, w.i, At(w) / BSIZE) == f0.inodes[w.i].addrs[w.stage.t];
  }

  lemma AssignAddr(f0: Fs, d0: Disk, x: Files, p: nat, y: Files)
    requires Sound(f0, d0, x) && p < |x.jobs| && AssignStep(x, p, y) && x.jobs[p].stage.t <= NDIRECT
    ensures Sound(f0, d0, y)
  {
    hide Abs, Slot, Raw, Exclusive, Owns, Addressed, Replays;
    var w, f := x.jobs[p], Live(x);
    var i, b, t := w.i, w.stage.b, w.stage.t;
    assert PendingOk(f, w) && JobOk(f0, f, Abs(x.sb, x.d).inodes, w);
    NewAddress(f0, f, w);
    SetAddrKeeps(f, i, t, b);
    assert Live(y) == SetAddr(f, i, t, b);
    ReplaysQuiet(d0, x, y, p);
    GiveOne(f, Live(y), x.jobs, p, y.jobs[p]);
    assert forall j: nat :: j < |x.mem| && j != i ==> SameFile(f, Live(y), j);
    assert JobOk(f0, Live(y), Abs(y.sb, y.d).inodes, y.jobs[p]);
    Assemble(f0, d0, x, p, y);
  }

  lemma AssignEntry(f0: Fs, d0: Disk, x: Files, p: nat, y: Files)
    requires Sound(f0, d0, x) && p < |x.jobs| && AssignStep(x, p, y) && x.jobs[p].stage.t > NDIRECT
    ensures Sound(f0, d0, y)
  {
    hide Abs, Raw, Exclusive, Owns, Addressed, KeepsAddrs, JobOk, WordAt, PutWord, Replays;
    var w, f := x.jobs[p], Live(x);
    var i, b, e, r := w.i, w.stage.b, w.stage.t - NDIRECT - 1, x.mem[w.i].addrs[NDIRECT];
    assert PendingOk(f, w);
    assert Slot(f, i, NDIRECT) == r != 0;
    RootIsData(f, i);
    PutBlockAbs(x.sb, x.d, r, PutWord(x.d[r], e, b));
    DataIs(x.sb, x.d, r);
    hide Slot;
    SetEntryKeeps(f, i, e, b);
    assert Live(y) == SetEntry(f, i, e, b);
    ReplaysEvent(d0, x, y, p, Event.Logged(x.jobs[p].proc, r, PutWord(x.d[r], e, b)));
    GiveOne(f, Live(y), x.jobs, p, y.jobs[p]);
    assert forall j: nat :: j < |x.mem| && j != i ==> SameFile(f, Live(y), j);
    JobSame(f0, f, Live(y), Abs(x.sb, x.d).inodes, w, y.jobs[p]);
    Assemble(f0, d0, x, p, y);
  }

  lemma RootIsData(f: Fs, i: nat)
    requires Exclusive(f) && Slot(f, i, NDIRECT) != 0
    ensures i < |f.inodes| && IsData(f, f.inodes[i].addrs[NDIRECT]) && Owns(f, f.inodes[i].addrs[NDIRECT])
  {
    assert IsData(f, Slot(f, i, NDIRECT));
  }

  // ------------------------------------------------------- bytes and size

  /** Bytes written into a block of file i. */
  lemma PutRaw(f: Fs, i: nat, at: nat, more: seq<Byte>, blk: Block)
    requires Shape(f) && Exclusive(f) && at / BSIZE < MAXFILE && Slot(f, i, SlotOf(at / BSIZE)) != 0
    requires 0 < |more| && at % BSIZE + |more| <= BSIZE
    requires var a := Slot(f, i, SlotOf(at / BSIZE));
             IsData(f, a) && blk == f.blocks[a][..at % BSIZE] + more + f.blocks[a][at % BSIZE + |more|..]
    ensures var g := PutBlock(f, Slot(f, i, SlotOf(at / BSIZE)), blk);
            && Shape(g) && SameSlots(f, g) && Exclusive(g)
            && forall j: nat, x: nat :: Raw(g, j, x) == if j == i && at <= x < at + |more| then more[x - at] else Raw(f, j, x)
  {
    var a := Slot(f, i, SlotOf(at / BSIZE));
    var g := PutBlock(f, a, blk);
    PutBlockChanges(f, i, at / BSIZE, blk);
    hide SameSlots, Exclusive;
    forall j: nat, x: nat
      ensures Raw(g, j, x) == if j == i && at <= x < at + |more| then more[x - at] else Raw(f, j, x)
    {
      assert Raw(g, j, x) == if j == i && x / BSIZE == at / BSIZE then blk[x % BSIZE] else Raw(f, j, x);
      assert at == at / BSIZE * BSIZE + at % BSIZE && x == x / BSIZE * BSIZE + x % BSIZE;
      if j == i && x / BSIZE == at / BSIZE {
        assert Raw(f, j, x) == f.blocks[a][x % BSIZE];
      }
    }
  }

  lemma PutJob(f0: Fs, f: Fs, g: Fs, on: seq<Dinode>, w: Job, k: nat)
    requires GoodJob(f0, w) && w.stage == Looping && w.done + k <= |w.data| && |f0.inodes| == |f.inodes| == |g.inodes| == |on|
    requires JobOk(f0, f, on, w) && g.inodes == f.inodes && SameSlots(f, g)
    requires At(w) % BSIZE + k <= BSIZE && Slot(f, w.i, SlotOf(At(w) / BSIZE)) != 0
    requires forall x: nat :: Raw(g, w.i, x) == if At(w) <= x < At(w) + k then w.data[w.done..w.done + k][x - At(w)] else Raw(f, w.i, x)
    ensures JobOk(f0, g, on, w.(done := w.done + k))
  {
    hide Raw, Slot, Addressed, KeepsAddrs;
    forall x: nat | w.off <= x < At(w) + k
      ensures Slot(g, w.i, SlotOf(x / BSIZE)) != 0
    {
      if x >= At(w) {
        SameBlock(At(w), x);
      } else {
        assert Slot(f, w.i, SlotOf(x / BSIZE)) != 0;
      }
    }
  }

  lemma PutKeeps(f0: Fs, d0: Disk, x: Files, p: nat, y: Files)
    requires Sound(f0, d0, x) && p < |x.jobs| && PutStep(x, p, y)
    ensures Sound(f0, d0, y)
  {
    hide Abs, Slot, Raw, Owns, Addressed, KeepsAddrs, JobOk, Replays;
    var w, f := x.jobs[p], Live(x);
    var at, k := At(w), y.jobs[p].done - w.done;
    var a := Slot(f, w.i, SlotOf(at / BSIZE));
    assert IsData(f, a) && Slot(f, w.i, SlotOf(at / BSIZE)) != 0;
    hide Exclusive;
    DataIs(x.sb, x.d, a);
    PutBlockAbs(x.sb, x.d, a, y.d[a]);
    assert Live(y) == PutBlock(f, a, y.d[a]);
    PutRaw(f, w.i, at, w.data[w.done..w.done + k], y.d[a]);
    ReplaysEvent(d0, x, y, p, Event.Logged(x.jobs[p].proc, a, y.d[a]));
    SameOwners(f, Live(y));
    OwnedSlot(f, w.i, SlotOf(at / BSIZE));
    ReservesKept(f, Live(y), x.jobs, p, y.jobs[p]);
    PutJob(f0, f, Live(y), Abs(x.sb, x.d).inodes, w, k);
    Assemble(f0, d0, x, p, y);
  }

  lemma OwnedSlot(f: Fs, i: nat, t: nat)
    requires Slot(f, i, t) != 0
    ensures Owns(f, Slot(f, i, t))
  {
  }

  lemma CloseJob(f0: Fs, f: Fs, g: Fs, on: seq<Dinode>, on': seq<Dinode>, w: Job)
    requires GoodJob(f0, w) && w.stage == Looping && w.done == |w.data| && |f0.inodes| == |f.inodes| == |g.inodes| == |on| == |on'|
    requires JobOk(f0, f, on, w) && (forall x: nat :: Raw(g, w.i, x) == Raw(f, w.i, x)) && SameSlots(f, g)
    requires if |w.data| > 0 && w.off + |w.data| > f.inodes[w.i].size
             then on'[w.i] == g.inodes[w.i] == f.inodes[w.i].(size := w.off + |w.data|)
             else g.inodes == f.inodes && on' == on
    ensures JobOk(f0, g, on', w.(stage := Stored))
  {
    hide Raw, Slot, Addressed, KeepsAddrs;
  }

  lemma CloseGrows(f0: Fs, d0: Disk, x: Files, p: nat, y: Files)
    requires Sound(f0, d0, x) && p < |x.jobs| && CloseStep(x, p, y) && Grows(x, x.jobs[p])
    ensures Sound(f0, d0, y)
  {
    hide Abs, Slot, Raw, Exclusive, Owns, Addressed, KeepsAddrs, JobOk, PutInode, Replays;
    var w, f := x.jobs[p], Live(x);
    var n := x.mem[w.i].(size := w.off + |w.data|);
    PutInodeAbs(x.sb, x.d, w.i, n);
    assert Live(y) == SetSize(f, w.i, w.off + |w.data|);
    SetSizeKeeps(f, w.i, w.off + |w.data|);
    ReplaysEvent(d0, x, y, p, Event.Logged(x.jobs[p].proc, IBLOCK(w.i, x.sb), PutInode(x.d[IBLOCK(w.i, x.sb)], w.i, n)));
    SameOwners(f, Live(y));
    ReservesKept(f, Live(y), x.jobs, p, y.jobs[p]);
    CloseJob(f0, f, Live(y), Abs(x.sb, x.d).inodes, Abs(y.sb, y.d).inodes, w);
    Assemble(f0, d0, x, p, y);
  }

  lemma CloseStays(f0: Fs, d0: Disk, x: Files, p: nat, y: Files)
    requires Sound(f0, d0, x) && p < |x.jobs| && CloseStep(x, p, y) && !Grows(x, x.jobs[p])
    ensures Sound(f0, d0, y)
  {
    hide Abs, Slot, Raw, Exclusive, Owns, Addressed, KeepsAddrs, JobOk, Replays;
    var w, f := x.jobs[p], Live(x);
    assert Live(y) == f;
    ReplaysQuiet(d0, x, y, p);
    ReservesKept(f, f, x.jobs, p, y.jobs[p]);
    CloseJob(f0, f, f, Abs(x.sb, x.d).inodes, Abs(y.sb, y.d).inodes, w);
    Assemble(f0, d0, x, p, y);
  }

  // ---------------------------------------------------------------- runs

  lemma SoundStep(f0: Fs, d0: Disk, x: Files, m: Move, y: Files)
    requires Sound(f0, d0, x) && Next(x, m, y)
    ensures Sound(f0, d0, y)
  {
    hide Sound, MarkStep, ZeroStep, AssignStep, PutStep, CloseStep;
    match m
    case Begin(_) => EdgeStep(f0, d0, x, m, y);
    case Mark(p, b) => MarkKeeps(f0, d0, x, p, b, y);
    case Zero(p) => ZeroKeeps(f0, d0, x, p, y);
    case Assign(p) =>
      AssignStages(x, p, y);
      if x.jobs[p].stage.t <= NDIRECT {
        AssignAddr(f0, d0, x, p, y);
      } else {
        AssignEntry(f0, d0, x, p, y);
      }
    case Put(p) => PutKeeps(f0, d0, x, p, y);
    case Close(p) =>
      if Grows(x, x.jobs[p]) {
        CloseGrows(f0, d0, x, p, y);
      } else {
        CloseStays(f0, d0, x, p, y);
      }
    case Finish(_) => EdgeStep(f0, d0, x, m, y);
  }

  lemma AssignStages(x: Files, p: nat, y: Files)
    requires p < |x.jobs| && AssignStep(x, p, y)
    ensures x.jobs[p].stage.Zeroed?
  {
  }

  ghost predicate Run(xs: seq<Files>, ms: seq<Move>) {
    Path(xs, ms) && Start(xs[0])
  }

  /** The job is the same call. */
  predicate SameCall(w: Job, w': Job) {
    w'.proc == w.proc && w'.i == w.i && w'.off == w.off && w'.data == w.data
  }

  ghost predicate SameCalls(x: Files, y: Files) {
    |y.jobs| == |x.jobs| && y.sb == x.sb && forall p: nat :: p < |x.jobs| ==> SameCall(x.jobs[p], y.jobs[p])
  }

  lemma CallStays(x: Files, m: Move, y: Files)
    requires Next(x, m, y)
    ensures SameCalls(x, y) && x.events <= y.events && |y.events| <= |x.events| + 1
  {
    hide Abs, Slot, PutBit, PutInode;
  }

  lemma {:induction false} RunSound(xs: seq<Files>, ms: seq<Move>, n: nat)
    requires Run(xs, ms) && n < |xs|
    ensures Sound(Abs(xs[0].sb, xs[0].d), xs[0].d, xs[n]) && SameCalls(xs[0], xs[n])
  {
    hide Sound, Next, Start, Abs;
    StartSb(xs[0]);
    if n == 0 {
      StartIsSound(xs[0]);
    } else {
      RunSound(xs, ms, n - 1);
      SoundStep(Abs(xs[0].sb, xs[0].d), xs[0].d, xs[n - 1], ms[n - 1], xs[n]);
      CallStays(xs[n - 1], ms[n - 1], xs[n]);
    }
  }

  lemma StartSb(x: Files)
    requires Start(x)
    ensures GoodSb(x.sb, x.d) && Good(Abs(x.sb, x.d)) && x.events == []
  {
  }

  /** Every prefix of the history is the history at some point of the run. */
  lemma {:induction false} Point(xs: seq<Files>, ms: seq<Move>, m: nat, cut: seq<Event>) returns (n: nat)
    requires Run(xs, ms) && m < |xs| && cut <= xs[m].events
    ensures n <= m && xs[n].events == cut && (cut == xs[m].events ==> n == m)
  {
    hide Next, Start;
    n := m;
    StartSb(xs[0]);
    if |cut| < |xs[m].events| {
      CallStays(xs[m - 1], ms[m - 1], xs[m]);
      n := Point(xs, ms, m - 1, cut);
    }
  }

  // ------------------------------------------------ the steps are those of writei

  /** One write, before begin_op and after end_op. */
  ghost predicate Whole(xs: seq<Files>, ms: seq<Move>, w: Job, d: Disk, mem: seq<Dinode>, us: seq<Update>) {
    && Run(xs, ms) && xs[0].jobs == [w.(stage := Waiting, done := 0)]
    && xs[|ms|] == Files(xs[0].sb, d, mem, [w.(stage := Over, done := |w.data|)], EventsOf(Operation(w.proc, us)))
  }

  lemma BeginAndEnd(x: Files, y: Files, w: Job, us: seq<Update>) returns (xs: seq<Files>, ms: seq<Move>)
    requires Start(x) && x.jobs == [w.(stage := Waiting, done := 0)] && w.stage == Looping && w.done == 0
    requires GoodSb(y.sb, y.d) && y == Solo(x.sb, y.d, y.mem, w.(stage := Stored, done := |w.data|), us)
    requires Leads(Solo(x.sb, x.d, x.mem, w, []), y)
    ensures Whole(xs, ms, w, y.d, y.mem, us) && xs[0] == x
  {
    hide Abs, Leads, MarkStep, ZeroStep, AssignStep, PutStep, CloseStep;
    var b := Solo(x.sb, x.d, x.mem, w, []);
    var z := Files(x.sb, y.d, y.mem, [w.(stage := Over, done := |w.data|)], EventsOf(Operation(w.proc, us)));
    StartSb(x);
    assert Next(x, Begin(0), b);
    LeadsNowhere(x);
    LeadsOn(x, x, Begin(0), b);
    LeadsThrough(x, b, y);
    assert Next(y, Finish(0), z);
    LeadsOn(x, y, Finish(0), z);
    xs, ms := PathOf(x, z);
  }

  lemma PathOf(x: Files, y: Files) returns (xs: seq<Files>, ms: seq<Move>)
    requires Leads(x, y)
    ensures PathTo(x, xs, ms, y)
  {
    xs, ms :| PathTo(x, xs, ms, y);
  }

  lemma StartOne(x: Files, f: Fs, w: Job)
    requires GoodSb(x.sb, x.d) && f == Abs(x.sb, x.d) && Good(f) && x.mem == f.inodes && x.events == []
    requires x.jobs == [w.(stage := Waiting)] && w.done == 0 && w.i < |f.inodes|
    requires w.off <= f.inodes[w.i].size && w.off + |w.data| <= MAXFILE * BSIZE
    ensures Start(x)
  {
    hide Abs, Good;
  }

  /** A write that Volume.Writei does by itself, from begin_op to end_op, is a run of these steps, with the same calls of log_write. */
  method WriteAlone(v: Volume, ip: Inode, src: seq<Byte>, off: Word) returns (r: Io, ghost xs: seq<Files>, ghost ms: seq<Move>)
    requires v.Valid(ip) && v.Agrees(ip) && v.log == [] && |src| < TWO32
    modifies v, ip
    ensures v.Valid(ip) && !r.OutOfRange?
    ensures r.Failed? <==> old(v.WriteRefused(ip, off, |src|))
    ensures r.Handed? <==> old(ip.typ) == T_DEV && !r.Failed?
    ensures r.OutOfBlocks? <==>
              !r.Failed? && !r.Handed? && Free(old(v.OnDisk())) < Missing(old(v.OnDisk()), ip.inum, off, off + |src|)
    ensures r.Done? ==>
              && Whole(xs, ms, Job(0, ip.inum, off, src, Looping, 0), v.disk, v.With(ip).inodes, v.log)
              && xs[0].d == old(v.disk) && xs[0].mem == old(v.OnDisk()).inodes
  {
    hide Abs, Leads, Good, GoodSb, Start, Whole, Overlaid, Addressed, KeepsAddrs, Covers, Adds, Missing, Clear, Mapped, Apply;
    ghost var w, f, d := Job(0, ip.inum, off, src, Looping, 0), v.With(ip), v.disk;
    assert f == v.OnDisk();
    r := v.Writei(ip, src, off);
    xs, ms := [], [];
    if r.Done? {
      ghost var x := Files(v.sb, d, f.inodes, [w.(stage := Waiting)], []);
      StartOne(x, f, w);
      assert v.log[0..] == v.log;
      xs, ms := BeginAndEnd(x, v.Here(ip, w.(stage := Stored, done := |src|), 0), w, v.log);
    }
  }

  // ------------------------------------------------ when nobody is inside

  /** No write is under way: each is still to come or over. */
  ghost predicate Settled(x: Files) {
    forall p: nat :: p < |x.jobs| ==> x.jobs[p].stage == Waiting || x.jobs[p].stage == Over
  }

  /** The write leaves the inode on disk as in memory: the file grew, or had an address for every block. */
  ghost predicate Agreed(f0: Fs, w: Job)
    requires w.i < |f0.inodes|
  {
    w.off + |w.data| > f0.inodes[w.i].size || Addressed(f0, w.i, w.off, w.off + |w.data|)
  }

  /** Every write that is over does so. */
  ghost predicate AllAgree(f0: Fs, jobs: seq<Job>)
    requires GoodJobs(f0, jobs)
  {
    forall p: nat :: p < |jobs| && jobs[p].stage == Over ==> Agreed(f0, jobs[p])
  }

  lemma LiveIsGood(f0: Fs, d0: Disk, x: Files)
    requires Sound(f0, d0, x) && Settled(x)
    ensures Good(Live(x))
  {
    hide Abs, Exclusive, Slot, Owns;
    var f := Live(x);
    forall b: nat | b < |f.bits|
      ensures f.bits[b] <==> b < f.meta || b in Owned(f)
    {
      assert !SomebodyHas(x.jobs, b);
      assert b in Owned(f) <==> Owns(f, b);
    }
  }

  /** Memory and disk agree. */
  lemma DiskIsLive(f0: Fs, d0: Disk, x: Files)
    requires Sound(f0, d0, x) && Settled(x) && AllAgree(f0, x.jobs)
    ensures Abs(x.sb, x.d) == Live(x)
  {
    hide Abs, Exclusive, Slot, Raw, Addressed, KeepsAddrs, MappedRange;
    var f, on := Live(x), Abs(x.sb, x.d).inodes;
    forall j: nat | j < |on|
      ensures on[j] == x.mem[j]
    {
      if p: nat :| p < |x.jobs| && x.jobs[p].i == j {
        assert JobOk(f0, f, on, x.jobs[p]) && GoodJob(f0, x.jobs[p]);
      } else {
        assert Untouched(x.jobs, j);
      }
    }
    assert on == x.mem;
  }

  lemma DiskKeepsAddrs(f0: Fs, d0: Disk, x: Files, j: nat)
    requires Sound(f0, d0, x) && Settled(x) && j < |x.mem|
    ensures KeepsAddrs(Abs(x.sb, x.d).inodes[j].addrs, x.mem[j].addrs)
  {
    hide Abs, Exclusive, Slot, Raw, Addressed, MappedRange;
    var f, on := Live(x), Abs(x.sb, x.d).inodes;
    if p: nat :| p < |x.jobs| && x.jobs[p].i == j {
      assert JobOk(f0, f, on, x.jobs[p]) && GoodJob(f0, x.jobs[p]);
    } else {
      assert Untouched(x.jobs, j);
    }
  }

  /** A write into a hole, which does not make the file longer, leaves an address in memory only. */
  lemma Forgotten(f0: Fs, d0: Disk, x: Files, p: nat)
    requires Sound(f0, d0, x) && p < |x.jobs| && x.jobs[p].stage == Over && !Agreed(f0, x.jobs[p])
    ensures var i := x.jobs[p].i; Abs(x.sb, x.d).inodes[i].addrs != x.mem[i].addrs
  {
    hide Abs, Exclusive, Slot, Raw, KeepsAddrs;
    var f, on, w := Live(x), Abs(x.sb, x.d).inodes, x.jobs[p];
    assert JobOk(f0, f, on, w) && GoodJob(f0, w);
    var a: nat :| w.off <= a < w.off + |w.data| && AddrOf(f0, w.i, a / BSIZE) == 0;
    assert Slot(f, w.i, SlotOf(a / BSIZE)) != 0;
    SlotNeedsAddr(f, w.i, a / BSIZE);
  }

  /** The file system on disk is good exactly if after every write that is over they agree. */
  lemma SettledGoodExactly(f0: Fs, d0: Disk, x: Files)
    requires Sound(f0, d0, x) && Settled(x)
    ensures Good(Abs(x.sb, x.d)) <==> AllAgree(f0, x.jobs)
  {
    LiveIsGood(f0, d0, x);
    hide Abs, Exclusive, Slot, Raw, KeepsAddrs, JobOk, OthersOk, Good, Addressed;
    if AllAgree(f0, x.jobs) {
      DiskIsLive(f0, d0, x);
    } else {
      var p: nat :| p < |x.jobs| && x.jobs[p].stage == Over && !Agreed(f0, x.jobs[p]);
      Forgotten(f0, d0, x, p);
      forall j: nat | j < |x.mem|
        ensures KeepsAddrs(Abs(x.sb, x.d).inodes[j].addrs, x.mem[j].addrs)
      {
        DiskKeepsAddrs(f0, d0, x, j);
      }
      FsCrash.Orphaned(Abs(x.sb, x.d), Live(x), x.jobs[p].i);
    }
  }

  /** Each file is wholly old, or its write is over and it is wholly new. */
  ghost predicate WholeFiles(f0: Fs, f: Fs, jobs: seq<Job>)
    requires GoodJobs(f0, jobs)
  {
    && |f.inodes| == |f0.inodes|
    && (forall p: nat :: p < |jobs| ==>
          Contents(f, jobs[p].i) ==
          if jobs[p].stage == Over then Patched(Contents(f0, jobs[p].i), jobs[p].off, jobs[p].data) else Contents(f0, jobs[p].i))
    && (forall j: nat :: j < |f.inodes| && Untouched(jobs, j) ==> Contents(f, j) == Contents(f0, j))
  }

  lemma SameContents(f0: Fs, f: Fs, i: nat)
    requires i < |f0.inodes| == |f.inodes| && f.inodes[i].size == f0.inodes[i].size && forall x: nat :: Raw(f, i, x) == Raw(f0, i, x)
    ensures Contents(f, i) == Contents(f0, i)
  {
    hide Raw;
  }

  lemma NewContents(f0: Fs, f: Fs, w: Job)
    requires w.i < |f0.inodes| == |f.inodes| && w.off <= f0.inodes[w.i].size
    requires f.inodes[w.i].size == Max(f0.inodes[w.i].size, w.off + |w.data|)
    requires forall x: nat :: Raw(f, w.i, x) == if w.off <= x < w.off + |w.data| then w.data[x - w.off] else Raw(f0, w.i, x)
    ensures Contents(f, w.i) == Patched(Contents(f0, w.i), w.off, w.data)
  {
    hide Raw;
    var c, d := Contents(f, w.i), Patched(Contents(f0, w.i), w.off, w.data);
    assert |c| == |d|;
    forall x | 0 <= x < |c|
      ensures c[x] == d[x]
    {
      assert Raw(f, w.i, x) == if w.off <= x < w.off + |w.data| then w.data[x - w.off] else Raw(f0, w.i, x);
    }
  }

  lemma JobContents(f0: Fs, f: Fs, on: seq<Dinode>, w: Job)
    requires GoodJob(f0, w) && |f0.inodes| == |f.inodes| == |on| && JobOk(f0, f, on, w) && (w.stage == Waiting || w.stage == Over)
    ensures Contents(f, w.i) == if w.stage == Over then Patched(Contents(f0, w.i), w.off, w.data) else Contents(f0, w.i)
  {
    hide Raw, Slot, Addressed, KeepsAddrs, MappedRange, Contents, Patched;
    if w.stage == Over {
      NewContents(f0, f, w);
    } else {
      SameContents(f0, f, w.i);
    }
  }

  lemma SettledFiles(f0: Fs, d0: Disk, x: Files)
    requires Sound(f0, d0, x) && Settled(x) && AllAgree(f0, x.jobs)
    ensures WholeFiles(f0, Abs(x.sb, x.d), x.jobs)
  {
    DiskIsLive(f0, d0, x);
    hide Abs, Raw, Slot, JobOk, Patched, Exclusive, Addressed;
    var f := Live(x);
    forall p: nat | p < |x.jobs|
      ensures Contents(f, x.jobs[p].i) ==
              if x.jobs[p].stage == Over then Patched(Contents(f0, x.jobs[p].i), x.jobs[p].off, x.jobs[p].data)
              else Contents(f0, x.jobs[p].i)
    {
      JobContents(f0, f, Abs(x.sb, x.d).inodes, x.jobs[p]);
    }
    forall j: nat | j < |f.inodes| && Untouched(x.jobs, j)
      ensures Contents(f, j) == Contents(f0, j)
    {
      assert forall a: nat :: Raw(f, j, a) == Raw(f0, j, a);
    }
  }

  // ------------------------------------------------------------- crashes

  /** A run of the log, cut off anywhere, whose history is that of the writes so far, or the first part of it. */
  ghost predicate Logs(xs: seq<Files>, s0: State, acts: seq<Action>)
    requires xs != []
  {
    && Init(s0) && CanRun(s0, acts) && (FreshRun(s0, acts) || (s0.l.size > LOGSIZE && WithinBudget(s0, acts)))
    && s0.disk0 == xs[0].d && s0.l.start + s0.l.size <= xs[0].sb.inodestart
    && End(s0, acts).events <= xs[|xs| - 1].events
  }

  lemma OpenIsInside(f0: Fs, d0: Disk, x: Files)
    requires Sound(f0, d0, x) && Open(x.events) == {}
    ensures Settled(x)
  {
    hide Abs, Exclusive, Slot, Raw, JobOk, OthersOk, Reserves, Accounts;
    forall p: nat | p < |x.jobs|
      ensures x.jobs[p].stage == Waiting || x.jobs[p].stage == Over
    {
      assert x.jobs[p].proc !in Open(x.events) && Idle(x.jobs, x.jobs[p].proc);
    }
  }

  /**
   Several processes write different files at once. Wherever the log is cut off, and however often
   recovery is, the file system recovered is the one at a point of the run where no write was under
   way. It is good exactly if every write over by then left memory and disk in agreement; and then
   each file written is wholly old or, if its write was over, wholly new, and the others are as they
   were. Once the log is idle that point is the last.
   */
  lemma CrashOfGroup(xs: seq<Files>, ms: seq<Move>, s0: State, acts: seq<Action>, ks: seq<nat>) returns (n: nat)
    requires Run(xs, ms) && Logs(xs, s0, acts)
    ensures n < |xs| && Settled(xs[n]) && SameCalls(xs[0], xs[n])
    ensures GoodSb(xs[0].sb, xs[0].d) && GoodSb(xs[n].sb, xs[n].d) && GoodJobs(Abs(xs[0].sb, xs[0].d), xs[n].jobs)
    ensures FsCrash.Recovers(xs[0].sb, End(s0, acts), ks, Abs(xs[n].sb, xs[n].d))
    ensures Good(Abs(xs[n].sb, xs[n].d)) <==> AllAgree(Abs(xs[0].sb, xs[0].d), xs[n].jobs)
    ensures AllAgree(Abs(xs[0].sb, xs[0].d), xs[n].jobs) ==> WholeFiles(Abs(xs[0].sb, xs[0].d), Abs(xs[n].sb, xs[n].d), xs[n].jobs)
    ensures var s := End(s0, acts);
            s.events == xs[|ms|].events && s.outstanding == 0 && !s.committing ==> n == |ms|
  {
    hide Abs, Good, GoodDisk, SameHome, Init, CanRun, FreshRun, WithinBudget, End, Replay, Open, Next, Start, Settled, AllAgree, WholeFiles;
    CrashConsistency(s0, acts, ks);
    var s := End(s0, acts);
    var cut := s.events[..s.safe];
    assert s.events[..|s.events|] == s.events;
    n := Point(xs, ms, |ms|, cut);
    StartSb(xs[0]);
    RunSound(xs, ms, n);
    var f0, d0 := Abs(xs[0].sb, xs[0].d), xs[0].d;
    OpenIsInside(f0, d0, xs[n]);
    SettledGoodExactly(f0, d0, xs[n]);
    if AllAgree(f0, xs[n].jobs) {
      SettledFiles(f0, d0, xs[n]);
    }
    FsCrash.HomeBack(xs[0].sb, s.l, Recovered(s.l, AfterCrashes(s.l, s.disk, ks)), xs[n].d);
  }

  // ------------------------------------------------------------- a run to an idle log

  /** The event is one of a process that is, or is not yet, in an operation, and lies in the file system. */
  ghost predicate Placed(sb: Superblock, procs: nat, h: seq<Event>, ev: Event) {
    match ev
    case Begun(p) => p < procs && p !in Open(h)
    case Logged(p, b, _) => p in Open(h) && sb.inodestart <= b < sb.size
    case Ended(p) => p in Open(h)
  }

  ghost predicate AllPlaced(sb: Superblock, procs: nat, es: seq<Event>) {
    forall k: nat :: k < |es| ==> Placed(sb, procs, es[..k], es[k])
  }

  /** The log lets the event pass: begin_op admits, the check of log_write finds room, the commit its buffers. */
  ghost predicate Grants(l: Layout, h: seq<Event>, ev: Event) {
    match ev
    case Begun(_) => |Batch(h)| + (|Open(h)| + 1) * MAXOPBLOCKS <= LOGSIZE
    case Logged(p, b, _) => Room(l, Seen(h, p)) && (b in Batch(h) || Room(l, Batch(h)))
    case Ended(_) => Small(h, ev)
  }

  ghost predicate AllGranted(l: Layout, es: seq<Event>) {
    forall k: nat :: k < |es| ==> Grants(l, es[..k], es[k])
  }

  /** The next event, if there is one, is placed. */
  ghost predicate NextPlaced(procs: nat, x: Files, y: Files) {
    || y.events == x.events
    || (|y.events| == |x.events| + 1 && x.events <= y.events && Placed(x.sb, procs, x.events, y.events[|x.events|]))
  }

  /** A call of log_write for a block of the file system by a process that is inside. */
  lemma CallPlaced(procs: nat, f0: Fs, d0: Disk, x: Files, p: nat, y: Files, b: nat, data: Block)
    requires Sound(f0, d0, x) && p < |x.jobs| && Inside(x.jobs[p]) && y.events == x.events + [Event.Logged(x.jobs[p].proc, b, data)]
    requires x.sb.inodestart <= b < x.sb.size
    ensures NextPlaced(procs, x, y)
  {
    hide Abs, Raw, Exclusive, Slot, Open, JobOk, Accounts, OthersOk, Reserves, Replay;
  }

  lemma EdgePlaced(procs: nat, f0: Fs, d0: Disk, x: Files, m: Move, y: Files)
    requires Sound(f0, d0, x) && Next(x, m, y) && (m.Begin? || m.Finish?) && x.jobs[m.p].proc < procs
    ensures NextPlaced(procs, x, y)
  {
    hide Abs, Raw, Exclusive, Slot, Open, JobOk, Accounts, OthersOk, Reserves, Replay;
  }

  lemma MarkPlaced(procs: nat, f0: Fs, d0: Disk, x: Files, p: nat, b: nat, y: Files)
    requires Sound(f0, d0, x) && p < |x.jobs| && MarkStep(x, p, b, y)
    ensures NextPlaced(procs, x, y)
  {
    hide Abs, Sound, Slot, PutBit, NextPlaced;
    SoundSb(f0, d0, x);
    CallPlaced(procs, f0, d0, x, p, y, BBLOCK(b, x.sb), PutBit(x.d[BBLOCK(b, x.sb)], b, true));
  }

  lemma SoundSb(f0: Fs, d0: Disk, x: Files)
    requires Sound(f0, d0, x)
    ensures GoodSb(x.sb, x.d) && |x.mem| == x.sb.ninodes
    ensures Exclusive(Live(x)) && Live(x).meta == Meta(x.sb) && |Live(x).blocks| == x.sb.size
    ensures forall p: nat :: p < |x.jobs| && Pending(x.jobs[p]) ==> PendingOk(Live(x), x.jobs[p])
  {
    hide Exclusive, Slot, JobOk, Accounts, OthersOk, Replay, Open, PendingOk;
  }

  lemma ZeroPlaced(procs: nat, f0: Fs, d0: Disk, x: Files, p: nat, y: Files)
    requires Sound(f0, d0, x) && p < |x.jobs| && ZeroStep(x, p, y)
    ensures NextPlaced(procs, x, y)
  {
    hide Abs, Sound, Slot, NextPlaced, Owns, Exclusive;
    SoundSb(f0, d0, x);
    assert PendingOk(Live(x), x.jobs[p]);
    CallPlaced(procs, f0, d0, x, p, y, x.jobs[p].stage.b, ZeroBlock());
  }

  lemma RootThere(f: Fs, w: Job)
    requires Exclusive(f) && Pending(w) && PendingOk(f, w) && w.stage.t > NDIRECT
    ensures w.i < |f.inodes| && IsData(f, f.inodes[w.i].addrs[NDIRECT])
  {
    hide Exclusive, Owns, Slot;
    RootIsData(f, w.i);
  }

  lemma AssignPlaced(procs: nat, f0: Fs, d0: Disk, x: Files, p: nat, y: Files)
    requires Sound(f0, d0, x) && p < |x.jobs| && AssignStep(x, p, y)
    ensures NextPlaced(procs, x, y)
  {
    hide Abs, Sound, Slot, PendingOk, Exclusive, PutWord;
    var w := x.jobs[p];
    if w.stage.t > NDIRECT {
      SoundSb(f0, d0, x);
      RootThere(Live(x), w);
      var r := x.mem[w.i].addrs[NDIRECT];
      CallPlaced(procs, f0, d0, x, p, y, r, PutWord(x.d[r], w.stage.t - NDIRECT - 1, w.stage.b));
    }
  }

  lemma PutPlaced(procs: nat, f0: Fs, d0: Disk, x: Files, p: nat, y: Files)
    requires Sound(f0, d0, x) && p < |x.jobs| && PutStep(x, p, y)
    ensures NextPlaced(procs, x, y)
  {
    hide Abs, Sound, Slot, NextPlaced, PendingOk;
    SoundSb(f0, d0, x);
    var w := x.jobs[p];
    var a := Slot(Live(x), w.i, SlotOf(At(w) / BSIZE));
    assert IsData(Live(x), a);
    CallPlaced(procs, f0, d0, x, p, y, a, y.d[a]);
  }

  lemma ClosePlaced(procs: nat, f0: Fs, d0: Disk, x: Files, p: nat, y: Files)
    requires Sound(f0, d0, x) && p < |x.jobs| && CloseStep(x, p, y)
    ensures NextPlaced(procs, x, y)
  {
    hide Abs, Sound, PendingOk, Exclusive, PutInode;
    SoundSb(f0, d0, x);
    var w := x.jobs[p];
    if Grows(x, w) {
      var b := IBLOCK(w.i, x.sb);
      CallPlaced(procs, f0, d0, x, p, y, b, PutInode(x.d[b], w.i, x.mem[w.i].(size := w.off + |w.data|)));
    }
  }

  lemma EventPlaced(procs: nat, f0: Fs, d0: Disk, x: Files, m: Move, y: Files)
    requires Sound(f0, d0, x) && Next(x, m, y) && x.jobs[m.p].proc < procs
    ensures NextPlaced(procs, x, y)
  {
    hide Sound, MarkStep, ZeroStep, AssignStep, PutStep, CloseStep, NextPlaced;
    match m
    case Begin(_) => EdgePlaced(procs, f0, d0, x, m, y);
    case Mark(p, b) => MarkPlaced(procs, f0, d0, x, p, b, y);
    case Zero(p) => ZeroPlaced(procs, f0, d0, x, p, y);
    case Assign(p) => AssignPlaced(procs, f0, d0, x, p, y);
    case Put(p) => PutPlaced(procs, f0, d0, x, p, y);
    case Close(p) => ClosePlaced(procs, f0, d0, x, p, y);
    case Finish(_) => EdgePlaced(procs, f0, d0, x, m, y);
  }

  lemma {:induction false} RunPlaced(procs: nat, xs: seq<Files>, ms: seq<Move>, n: nat)
    requires Run(xs, ms) && n < |xs| && forall p: nat :: p < |xs[0].jobs| ==> xs[0].jobs[p].proc < procs
    ensures AllPlaced(xs[0].sb, procs, xs[n].events)
  {
    hide Next, Start, Sound, Abs, Placed;
    StartSb(xs[0]);
    if n > 0 {
      var x, y := xs[n - 1], xs[n];
      RunPlaced(procs, xs, ms, n - 1);
      RunSound(xs, ms, n - 1);
      MoverIs(x, ms[n - 1], y);
      assert SameCall(xs[0].jobs[ms[n - 1].p], x.jobs[ms[n - 1].p]);
      EventPlaced(procs, Abs(xs[0].sb, xs[0].d), xs[0].d, x, ms[n - 1], y);
      if y.events != x.events {
        assert y.events[..|x.events|] == x.events;
        assert forall k: nat :: k < |x.events| ==> y.events[..k] == x.events[..k];
      }
    }
  }

  lemma MoverIs(x: Files, m: Move, y: Files)
    requires Next(x, m, y)
    ensures m.p < |x.jobs|
  {
    hide MarkStep, ZeroStep, AssignStep, PutStep, CloseStep;
  }

  /** The log stands in front of the file system that the writes start from. */
  ghost predicate Mounted(xs: seq<Files>, s0: State)
    requires xs != []
  {
    && Init(s0) && s0.disk0 == xs[0].d && s0.l.start + s0.l.size <= xs[0].sb.inodestart
    && forall p: nat :: p < |xs[0].jobs| ==> xs[0].jobs[p].proc < |s0.procs|
  }

  lemma GrantedIsPossible(sb: Superblock, s0: State, es: seq<Event>)
    requires AllPlaced(sb, |s0.procs|, es) && s0.l.start + s0.l.size <= sb.inodestart && |s0.disk| == sb.size
    ensures AllGranted(s0.l, es) <==> Possible(s0.l, |s0.procs|, |s0.disk|, es) && Roomy(es)
  {
    forall k: nat | k < |es|
      ensures Grants(s0.l, es[..k], es[k]) <==> Allowed(s0.l, |s0.procs|, |s0.disk|, es[..k], es[k]) && Small(es[..k], es[k])
    {
      assert Placed(sb, |s0.procs|, es[..k], es[k]);
    }
  }

  /**
   A group of writes, in whatever order their steps come, of which none is left half done: the log
   has a run for it that ends idle exactly if it grants every event; and after every such run each
   recovery finds the file system as the writes left it.
   */
  lemma GroupLastsExactly(xs: seq<Files>, ms: seq<Move>, s0: State)
    requires Run(xs, ms) && Settled(xs[|ms|]) && Mounted(xs, s0)
    ensures (exists acts: seq<Action> :: Settles(s0, acts, xs[|ms|].events)) <==> AllGranted(s0.l, xs[|ms|].events)
    ensures GoodSb(xs[|ms|].sb, xs[|ms|].d)
    ensures forall acts: seq<Action>, ks: seq<nat> :: Settles(s0, acts, xs[|ms|].events) ==>
              FsCrash.Recovers(xs[0].sb, End(s0, acts), ks, Abs(xs[|ms|].sb, xs[|ms|].d))
  {
    hide Abs, Good, GoodDisk, SameHome, CanRun, FreshRun, WithinBudget, End, Next, Start, AllAgree, WholeFiles, FsCrash.Recovers;
    hide AllPlaced, AllGranted, Possible, Roomy, Sound;
    var x := xs[|ms|];
    StartSb(xs[0]);
    RunSound(xs, ms, |ms|);
    RunPlaced(|s0.procs|, xs, ms, |ms|);
    SettledIsOpen(Abs(xs[0].sb, xs[0].d), xs[0].d, x);
    GrantedIsPossible(xs[0].sb, s0, x.events);
    SettlesExactly(s0, x.events);
    forall acts: seq<Action>, ks: seq<nat> | Settles(s0, acts, x.events)
      ensures FsCrash.Recovers(xs[0].sb, End(s0, acts), ks, Abs(x.sb, x.d))
    {
      var n := CrashOfGroup(xs, ms, s0, acts, ks);
    }
  }

  lemma SettledIsOpen(f0: Fs, d0: Disk, x: Files)
    requires Sound(f0, d0, x) && Settled(x)
    ensures Open(x.events) == {} && GoodSb(x.sb, x.d)
  {
    hide Abs, Exclusive, Slot, Raw, JobOk, OthersOk, Reserves, Accounts;
    assert forall i: nat :: Idle(x.jobs, i);
  }
}
