/**
 The steps of a write (fs.c): what writei does between begin_op and end_op, each step the change
 of one buffer and its log_write, or of the inode in memory.
 */
module FsSteps {
  import opened Blocks
  import opened FsModel
  import opened FsImage
  import opened GroupCommit

  /** What log_write records: block bno now has these contents. */
  datatype Update = Update(bno: nat, data: Block)

  /** The calls us, made by process i. */
  function Calls(i: nat, us: seq<Update>): seq<Event> {
    seq(|us|, k requires 0 <= k < |us| => Event.Logged(i, us[k].bno, us[k].data))
  }

  datatype Stage =
    | Waiting                 // before begin_op
    | Looping                 // at the head of writei's loop
    | Marked(b: nat, t: nat)  // balloc has marked block b, for slot t
    | Zeroed(b: nat, t: nat)  // and zeroed it
    | Stored                  // past the loop, the size brought up to date
    | Over                    // after end_op

  /** A write by process proc of data at off in file i, of which `done` bytes have been written. */
  datatype Job = Job(proc: nat, i: nat, off: nat, data: seq<Byte>, stage: Stage, done: nat)

  /** The logical disk, the inodes in memory, the writes, and the history of the log. */
  datatype Files = Files(sb: Superblock, d: Disk, mem: seq<Dinode>, jobs: seq<Job>, events: seq<Event>)

  datatype Move =
    | Begin(p: nat)
    | Mark(p: nat, b: nat)
    | Zero(p: nat)
    | Assign(p: nat)
    | Put(p: nat)
    | Close(p: nat)
    | Finish(p: nat)

  /** The file system with the inodes in memory in place of those on disk. */
  ghost function Live(x: Files): Fs
    requires GoodSb(x.sb, x.d)
  {
    Abs(x.sb, x.d).(inodes := x.mem)
  }

  /** The slot that bmap looks at for block bn: the indirect block first, if it is needed and absent. */
  function Wanted(f: Fs, i: nat, bn: nat): nat {
    if bn >= NDIRECT && Slot(f, i, NDIRECT) == 0 then NDIRECT else SlotOf(bn)
  }

  /** Where a job writes next. */
  function At(w: Job): nat {
    w.off + w.done
  }

  /** Bytes of the next round: what is left, but not past the end of the block. */
  function Chunk(left: nat, at: nat): nat {
    if left < BSIZE - at % BSIZE then left else BSIZE - at % BSIZE
  }

  /** The process is between begin_op and end_op of this write. */
  predicate Inside(w: Job) {
    w.stage != Waiting && w.stage != Over
  }

  /** Nothing that process i does is under way. */
  ghost predicate Idle(jobs: seq<Job>, i: nat) {
    forall q: nat :: q < |jobs| && jobs[q].proc == i ==> !Inside(jobs[q])
  }

  function LogTo(x: Files, p: nat, b: nat, data: Block): Files
    requires b < |x.d| && p < |x.jobs|
  {
    x.(d := x.d[b := data], events := x.events + [Event.Logged(x.jobs[p].proc, b, data)])
  }

  function Staged(x: Files, p: nat, s: Stage): Files
    requires p < |x.jobs|
  {
    x.(jobs := x.jobs[p := x.jobs[p].(stage := s)])
  }

  // ----------------------------------------------------------------- steps

  ghost predicate MarkStep(x: Files, p: nat, b: nat, y: Files)
    requires p < |x.jobs| && GoodSb(x.sb, x.d)
  {
    var w, f := x.jobs[p], Live(x);
    var t := Wanted(f, w.i, At(w) / BSIZE);
    && w.stage == Looping && w.done < |w.data| && Slot(f, w.i, t) == 0
    && b < x.sb.size && !f.bits[b] && (forall c: nat :: c < b ==> f.bits[c])
    && BBLOCK(b, x.sb) < |x.d|
    && y == Staged(LogTo(x, p, BBLOCK(b, x.sb), PutBit(x.d[BBLOCK(b, x.sb)], b, true)), p, Marked(b, t))
  }

  ghost predicate ZeroStep(x: Files, p: nat, y: Files)
    requires p < |x.jobs|
  {
    var s := x.jobs[p].stage;
    s.Marked? && s.b < |x.d| && y == Staged(LogTo(x, p, s.b, ZeroBlock()), p, Zeroed(s.b, s.t))
  }

  ghost predicate AssignStep(x: Files, p: nat, y: Files)
    requires p < |x.jobs|
  {
    var w := x.jobs[p];
    && w.stage.Zeroed? && w.i < |x.mem| && w.stage.b < TWO32
    && if w.stage.t <= NDIRECT then
         y == Staged(x.(mem := x.mem[w.i := x.mem[w.i].(addrs := x.mem[w.i].addrs[w.stage.t := w.stage.b])]), p, Looping)
       else
         var r, e := x.mem[w.i].addrs[NDIRECT], w.stage.t - NDIRECT - 1;
         r < |x.d| && e < NINDIRECT && y == Staged(LogTo(x, p, r, PutWord(x.d[r], e, w.stage.b)), p, Looping)
  }

  ghost predicate PutStep(x: Files, p: nat, y: Files)
    requires p < |x.jobs| && GoodSb(x.sb, x.d)
  {
    var w := x.jobs[p];
    var a, at := Slot(Live(x), w.i, SlotOf(At(w) / BSIZE)), At(w);
    && w.stage == Looping && w.done < |w.data| && a != 0 && a < |x.d|
    && var k := Chunk(|w.data| - w.done, at);
       var blk: Block := x.d[a][..at % BSIZE] + w.data[w.done..w.done + k] + x.d[a][at % BSIZE + k..];
       y == LogTo(x, p, a, blk).(jobs := x.jobs[p := w.(done := w.done + k)])
  }

  predicate Grows(x: Files, w: Job) {
    w.i < |x.mem| && |w.data| > 0 && w.off + |w.data| > x.mem[w.i].size
  }

  ghost predicate CloseStep(x: Files, p: nat, y: Files)
    requires p < |x.jobs|
  {
    var w := x.jobs[p];
    && w.stage == Looping && w.done == |w.data|
    && if Grows(x, w) then
         && w.off + |w.data| < TWO32 && IBLOCK(w.i, x.sb) < |x.d|
         && var n := x.mem[w.i].(size := w.off + |w.data|);
            y == Staged(LogTo(x, p, IBLOCK(w.i, x.sb), PutInode(x.d[IBLOCK(w.i, x.sb)], w.i, n)), p, Stored).(mem := x.mem[w.i := n])
       else y == Staged(x, p, Stored)
  }

  ghost predicate Next(x: Files, m: Move, y: Files) {
    && m.p < |x.jobs| && GoodSb(x.sb, x.d)
    && match m
       case Begin(p) =>
         && x.jobs[p].stage == Waiting && Idle(x.jobs, x.jobs[p].proc)
         && y == Staged(x, p, Looping).(events := x.events + [Begun(x.jobs[p].proc)])
       case Mark(p, b) => MarkStep(x, p, b, y)
       case Zero(p) => ZeroStep(x, p, y)
       case Assign(p) => AssignStep(x, p, y)
       case Put(p) => PutStep(x, p, y)
       case Close(p) => CloseStep(x, p, y)
       case Finish(p) =>
         x.jobs[p].stage == Stored && y == Staged(x, p, Over).(events := x.events + [Ended(x.jobs[p].proc)])
  }

  // ------------------------------------------------------------- sequences

  ghost predicate Path(xs: seq<Files>, ms: seq<Move>) {
    |xs| == |ms| + 1 && forall n: nat :: n < |ms| ==> Next(xs[n], ms[n], xs[n + 1])
  }

  ghost predicate PathTo(x: Files, xs: seq<Files>, ms: seq<Move>, y: Files) {
    Path(xs, ms) && xs[0] == x && xs[|ms|] == y
  }

  /** Steps lead from x to y. */
  ghost predicate Leads(x: Files, y: Files) {
    exists xs: seq<Files>, ms: seq<Move> :: PathTo(x, xs, ms, y)
  }

  lemma LeadsNowhere(x: Files)
    ensures Leads(x, x)
  {
    assert PathTo(x, [x], [], x);
  }

  lemma LeadsOn(x: Files, y: Files, m: Move, z: Files)
    requires Leads(x, y) && Next(y, m, z)
    ensures Leads(x, z)
  {
    hide Next;
    var xs, ms :| PathTo(x, xs, ms, y);
    assert PathTo(x, xs + [z], ms + [m], z);
  }

  lemma LeadsThrough(x: Files, y: Files, z: Files)
    requires Leads(x, y) && Leads(y, z)
    ensures Leads(x, z)
  {
    hide Next;
    var xs, ms :| PathTo(x, xs, ms, y);
    var ys, ns :| PathTo(y, ys, ns, z);
    var zs := xs + ys[1..];
    forall n: nat | n < |ms + ns|
      ensures Next(zs[n], (ms + ns)[n], zs[n + 1])
    {
      if n < |ms| {
        assert Next(xs[n], ms[n], xs[n + 1]);
      } else {
        assert Next(ys[n - |ms|], ns[n - |ms|], ys[n - |ms| + 1]);
        assert zs[n] == ys[n - |ms|];
      }
    }
    assert PathTo(x, zs, ms + ns, z);
  }

  // ------------------------------------------------------- one write alone

  /** A single job, the calls us of log_write into it. */
  function Solo(sb: Superblock, d: Disk, mem: seq<Dinode>, w: Job, us: seq<Update>): Files {
    Files(sb, d, mem, [w], [Begun(w.proc)] + Calls(w.proc, us))
  }

  lemma CallsSnoc(i: nat, us: seq<Update>, u: Update)
    ensures Calls(i, us + [u]) == Calls(i, us) + [Event.Logged(i, u.bno, u.data)]
  {
  }

  lemma SoloLogs(sb: Superblock, d: Disk, mem: seq<Dinode>, w: Job, us: seq<Update>, b: nat, data: Block)
    requires b < |d|
    ensures LogTo(Solo(sb, d, mem, w, us), 0, b, data) == Solo(sb, d[b := data], mem, w, us + [Update(b, data)])
  {
    CallsSnoc(w.proc, us, Update(b, data));
  }

  /** The calls of balloc for block b, and the disk after them. */
  function Taking(sb: Superblock, d: Disk, b: nat): seq<Update>
    requires BBLOCK(b, sb) < |d|
  {
    [Update(BBLOCK(b, sb), PutBit(d[BBLOCK(b, sb)], b, true)), Update(b, ZeroBlock())]
  }

  function Taken(sb: Superblock, d: Disk, b: nat): Disk
    requires BBLOCK(b, sb) < |d| && b < |d|
  {
    d[BBLOCK(b, sb) := PutBit(d[BBLOCK(b, sb)], b, true)][b := ZeroBlock()]
  }

  /** Block b is the first that is free. */
  ghost predicate FirstClear(f: Fs, b: nat) {
    b < |f.bits| && !f.bits[b] && forall c: nat :: c < b ==> f.bits[c]
  }

  /** A job that is about to look up block bn of file i. */
  predicate LooksFor(w: Job, i: nat, bn: nat) {
    w.i == i && w.stage == Looping && w.done < |w.data| && At(w) / BSIZE == bn
  }

  /** balloc for slot t, in two steps. */
  lemma TakeLeads(sb: Superblock, d: Disk, mem: seq<Dinode>, w: Job, us: seq<Update>, b: nat, t: nat)
    requires GoodSb(sb, d) && BBLOCK(b, sb) < |d| && b < |d| && w.stage == Looping && w.done < |w.data|
    requires var f := Abs(sb, d).(inodes := mem);
             FirstClear(f, b) && t == Wanted(f, w.i, At(w) / BSIZE) && Slot(f, w.i, t) == 0
    ensures Leads(Solo(sb, d, mem, w, us), Solo(sb, Taken(sb, d, b), mem, w.(stage := Zeroed(b, t)), us + Taking(sb, d, b)))
  {
    hide Abs, Slot, PutBit, Leads;
    var c, blk := BBLOCK(b, sb), PutBit(d[BBLOCK(b, sb)], b, true);
    var x := Solo(sb, d, mem, w, us);
    var y := Solo(sb, d[c := blk], mem, w.(stage := Marked(b, t)), us + [Update(c, blk)]);
    var z := Solo(sb, Taken(sb, d, b), mem, w.(stage := Zeroed(b, t)), us + [Update(c, blk)] + [Update(b, ZeroBlock())]);
    SoloLogs(sb, d, mem, w, us, c, blk);
    SoloLogs(sb, d[c := blk], mem, y.jobs[0], us + [Update(c, blk)], b, ZeroBlock());
    assert us + Taking(sb, d, b) == us + [Update(c, blk)] + [Update(b, ZeroBlock())];
    LeadsNowhere(x);
    assert MarkStep(x, 0, b, y);
    LeadsOn(x, x, Mark(0, b), y);
    assert ZeroStep(y, 0, z);
    LeadsOn(x, y, Zero(0), z);
  }

  /** An address for slot t of the inode: balloc, and the assignment in memory. */
  lemma AddrLeads(sb: Superblock, d: Disk, mem: seq<Dinode>, w: Job, us: seq<Update>, b: nat, t: nat)
    requires GoodSb(sb, d) && BBLOCK(b, sb) < |d| && b < |d| && w.stage == Looping && w.done < |w.data|
    requires w.i < |mem| && t <= NDIRECT && b < TWO32
    requires var f := Abs(sb, d).(inodes := mem);
             FirstClear(f, b) && t == Wanted(f, w.i, At(w) / BSIZE) && Slot(f, w.i, t) == 0
    ensures var n := mem[w.i];
            Leads(Solo(sb, d, mem, w, us),
                  Solo(sb, Taken(sb, d, b), mem[w.i := n.(addrs := n.addrs[t := b])], w, us + Taking(sb, d, b)))
  {
    TakeLeads(sb, d, mem, w, us, b, t);
    hide Abs, Slot, PutBit, Leads, Taken, Taking;
    var x, n := Solo(sb, d, mem, w, us), mem[w.i];
    var y := Solo(sb, Taken(sb, d, b), mem, w.(stage := Zeroed(b, t)), us + Taking(sb, d, b));
    var z := Solo(sb, Taken(sb, d, b), mem[w.i := n.(addrs := n.addrs[t := b])], w, us + Taking(sb, d, b));
    TakenSize(sb, d, b);
    assert AssignStep(y, 0, z);
    LeadsOn(x, y, Assign(0), z);
  }

  lemma TakenSize(sb: Superblock, d: Disk, b: nat)
    requires BBLOCK(b, sb) < |d| && b < |d|
    ensures |Taken(sb, d, b)| == |d|
  {
  }

  /** An entry of the indirect block: balloc, and the entry. */
  lemma EntryLeads(sb: Superblock, d: Disk, mem: seq<Dinode>, w: Job, us: seq<Update>, b: nat, e: nat)
    requires GoodSb(sb, d) && BBLOCK(b, sb) < |d| && b < |d| && w.stage == Looping && w.done < |w.data|
    requires w.i < |mem| && e < NINDIRECT && b < TWO32 && mem[w.i].addrs[NDIRECT] < |d|
    requires var f := Abs(sb, d).(inodes := mem);
             FirstClear(f, b) && NDIRECT + 1 + e == Wanted(f, w.i, At(w) / BSIZE) && Slot(f, w.i, NDIRECT + 1 + e) == 0
    ensures |Taken(sb, d, b)| == |d|
    ensures var d', r := Taken(sb, d, b), mem[w.i].addrs[NDIRECT];
            var blk := PutWord(d'[r], e, b);
            Leads(Solo(sb, d, mem, w, us), Solo(sb, d'[r := blk], mem, w, us + Taking(sb, d, b) + [Update(r, blk)]))
  {
    TakeLeads(sb, d, mem, w, us, b, NDIRECT + 1 + e);
    hide Abs, Slot, PutBit, PutWord, Leads, Taken, Taking;
    TakenSize(sb, d, b);
    var x, d', r := Solo(sb, d, mem, w, us), Taken(sb, d, b), mem[w.i].addrs[NDIRECT];
    var blk, w', vs := PutWord(d'[r], e, b), w.(stage := Zeroed(b, NDIRECT + 1 + e)), us + Taking(sb, d, b);
    var y := Solo(sb, d', mem, w', vs);
    var z := Solo(sb, d'[r := blk], mem, w, vs + [Update(r, blk)]);
    SoloLogs(sb, d', mem, w', vs, r, blk);
    assert AssignStep(y, 0, z);
    LeadsOn(x, y, Assign(0), z);
  }

  /** Looking up block bn of file i takes any job that is there from d and mem to d' and mem', with these calls. */
  ghost predicate Finds(sb: Superblock, d: Disk, mem: seq<Dinode>, d': Disk, mem': seq<Dinode>, us: seq<Update>, i: nat, bn: nat) {
    forall w: Job, vs: seq<Update> :: LooksFor(w, i, bn) ==> Leads(Solo(sb, d, mem, w, vs), Solo(sb, d', mem', w, vs + us))
  }

  lemma FindsAtOnce(sb: Superblock, d: Disk, mem: seq<Dinode>, i: nat, bn: nat)
    ensures Finds(sb, d, mem, d, mem, [], i, bn)
  {
    hide Leads;
    forall w: Job, vs: seq<Update> | LooksFor(w, i, bn)
      ensures Leads(Solo(sb, d, mem, w, vs), Solo(sb, d, mem, w, vs + []))
    {
      LeadsNowhere(Solo(sb, d, mem, w, vs));
      assert vs + [] == vs;
    }
  }

  lemma FindsThrough(sb: Superblock, d: Disk, mem: seq<Dinode>, d': Disk, mem': seq<Dinode>, us: seq<Update>,
                     d'': Disk, mem'': seq<Dinode>, more: seq<Update>, i: nat, bn: nat)
    requires Finds(sb, d, mem, d', mem', us, i, bn) && Finds(sb, d', mem', d'', mem'', more, i, bn)
    ensures Finds(sb, d, mem, d'', mem'', us + more, i, bn)
  {
    hide Leads;
    forall w: Job, vs: seq<Update> | LooksFor(w, i, bn)
      ensures Leads(Solo(sb, d, mem, w, vs), Solo(sb, d'', mem'', w, vs + (us + more)))
    {
      assert vs + (us + more) == vs + us + more;
      LeadsThrough(Solo(sb, d, mem, w, vs), Solo(sb, d', mem', w, vs + us), Solo(sb, d'', mem'', w, vs + us + more));
    }
  }

  lemma FindsAddr(sb: Superblock, d: Disk, mem: seq<Dinode>, b: nat, t: nat, i: nat, bn: nat)
    requires GoodSb(sb, d) && BBLOCK(b, sb) < |d| && b < |d| && i < |mem| && t <= NDIRECT && b < TWO32
    requires var f := Abs(sb, d).(inodes := mem); FirstClear(f, b) && t == Wanted(f, i, bn) && Slot(f, i, t) == 0
    ensures var n := mem[i];
            Finds(sb, d, mem, Taken(sb, d, b), mem[i := n.(addrs := n.addrs[t := b])], Taking(sb, d, b), i, bn)
  {
    hide Abs, Slot, Leads, Taken, Taking, FirstClear, Wanted, GoodSb, Solo;
    var n := mem[i];
    forall w: Job, vs: seq<Update> | LooksFor(w, i, bn)
      ensures Leads(Solo(sb, d, mem, w, vs),
                    Solo(sb, Taken(sb, d, b), mem[i := n.(addrs := n.addrs[t := b])], w, vs + Taking(sb, d, b)))
    {
      AddrLeads(sb, d, mem, w, vs, b, t);
    }
  }

  lemma FindsEntry(sb: Superblock, d: Disk, mem: seq<Dinode>, b: nat, e: nat, i: nat, bn: nat)
    requires GoodSb(sb, d) && BBLOCK(b, sb) < |d| && b < |d| && i < |mem| && e < NINDIRECT && b < TWO32 && mem[i].addrs[NDIRECT] < |d|
    requires var f := Abs(sb, d).(inodes := mem);
             FirstClear(f, b) && NDIRECT + 1 + e == Wanted(f, i, bn) && Slot(f, i, NDIRECT + 1 + e) == 0
    ensures |Taken(sb, d, b)| == |d|
    ensures var d', r := Taken(sb, d, b), mem[i].addrs[NDIRECT];
            var blk := PutWord(d'[r], e, b);
            Finds(sb, d, mem, d'[r := blk], mem, Taking(sb, d, b) + [Update(r, blk)], i, bn)
  {
    hide Abs, Slot, Leads, Taken, Taking, FirstClear, Wanted, GoodSb, Solo, PutWord;
    TakenSize(sb, d, b);
    var d', r := Taken(sb, d, b), mem[i].addrs[NDIRECT];
    var blk := PutWord(d'[r], e, b);
    forall w: Job, vs: seq<Update> | LooksFor(w, i, bn)
      ensures Leads(Solo(sb, d, mem, w, vs), Solo(sb, d'[r := blk], mem, w, vs + (Taking(sb, d, b) + [Update(r, blk)])))
    {
      EntryLeads(sb, d, mem, w, vs, b, e);
      assert vs + (Taking(sb, d, b) + [Update(r, blk)]) == vs + Taking(sb, d, b) + [Update(r, blk)];
    }
  }

  /** The bytes of a round, once the block has been found. */
  lemma PutLeads(sb: Superblock, d: Disk, mem: seq<Dinode>, w: Job, us: seq<Update>, a: nat, k: nat)
    requires GoodSb(sb, d) && w.stage == Looping && w.done < |w.data| && a != 0 && a < |d|
    requires a == Slot(Abs(sb, d).(inodes := mem), w.i, SlotOf(At(w) / BSIZE)) && k == Chunk(|w.data| - w.done, At(w))
    ensures var at := At(w);
            var blk: Block := d[a][..at % BSIZE] + w.data[w.done..w.done + k] + d[a][at % BSIZE + k..];
            Leads(Solo(sb, d, mem, w, us), Solo(sb, d[a := blk], mem, w.(done := w.done + k), us + [Update(a, blk)]))
  {
    hide Abs, Slot, Leads;
    var at, x := At(w), Solo(sb, d, mem, w, us);
    var blk: Block := d[a][..at % BSIZE] + w.data[w.done..w.done + k] + d[a][at % BSIZE + k..];
    var y := Solo(sb, d[a := blk], mem, w.(done := w.done + k), us + [Update(a, blk)]);
    SoloLogs(sb, d, mem, w, us, a, blk);
    assert PutStep(x, 0, y);
    LeadsNowhere(x);
    LeadsOn(x, x, Put(0), y);
  }

  /** The end of writei: the size, if the file has grown. */
  lemma CloseLeads(sb: Superblock, d: Disk, mem: seq<Dinode>, w: Job, us: seq<Update>)
    requires GoodSb(sb, d) && w.stage == Looping && w.done == |w.data| && w.i < |mem| == sb.ninodes && w.off + |w.data| < TWO32
    ensures IBLOCK(w.i, sb) < |d|
    ensures var n := mem[w.i].(size := w.off + |w.data|);
            var blk := PutInode(d[IBLOCK(w.i, sb)], w.i, n);
            |w.data| > 0 && w.off + |w.data| > mem[w.i].size ==>
              Leads(Solo(sb, d, mem, w, us),
                    Solo(sb, d[IBLOCK(w.i, sb) := blk], mem[w.i := n], w.(stage := Stored), us + [Update(IBLOCK(w.i, sb), blk)]))
    ensures !(|w.data| > 0 && w.off + |w.data| > mem[w.i].size) ==>
              Leads(Solo(sb, d, mem, w, us), Solo(sb, d, mem, w.(stage := Stored), us))
  {
    hide Abs, Leads, PutInode;
    var x, b := Solo(sb, d, mem, w, us), IBLOCK(w.i, sb);
    assert b < |d|;
    var n := mem[w.i].(size := w.off + |w.data|);
    var blk := PutInode(d[b], w.i, n);
    LeadsNowhere(x);
    if Grows(x, w) {
      var y := Solo(sb, d[b := blk], mem[w.i := n], w.(stage := Stored), us + [Update(b, blk)]);
      SoloLogs(sb, d, mem, w, us, b, blk);
      assert CloseStep(x, 0, y);
      LeadsOn(x, x, Close(0), y);
    } else {
      var y := Solo(sb, d, mem, w.(stage := Stored), us);
      assert CloseStep(x, 0, y);
      LeadsOn(x, x, Close(0), y);
    }
  }
}
