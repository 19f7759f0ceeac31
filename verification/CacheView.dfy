/**
 What clients of the buffer cache can rely on without knowing which buffer holds what:
 a flat array of block contents, and which blocks are held or pinned. Every cache step is
 a simple step of this view, so recycling and the recency list are invisible.
 */
module CacheView {
  import Basics
  import opened Blocks
  import opened CacheModel

  datatype View = View(contents: Disk, dirty: set<nat>, busy: set<nat>)

  ghost predicate DirtyAt(c: Cache, n: nat) {
    exists i :: 0 <= i < |c.bufs| && Caches(c.bufs[i], n) && c.bufs[i].dirty
  }

  ghost predicate BusyAt(c: Cache, n: nat) {
    exists i :: 0 <= i < |c.bufs| && Caches(c.bufs[i], n) && c.bufs[i].busy
  }

  ghost function ViewOf(c: Cache): (v: View)
    ensures |v.contents| == |c.disk|
  {
    View(seq(|c.disk|, n requires 0 <= n < |c.disk| => Logical(c, n)),
         set n: nat | n < |c.disk| && DirtyAt(c, n),
         set n: nat | n < |c.disk| && BusyAt(c, n))
  }

  function ViewStep(v: View, a: Step, n: nat): View
    requires n < |v.contents|
  {
    match a
    case Get(_, _) => v.(busy := v.busy + {n})
    case Sync(_) => v.(dirty := v.dirty - {n})
    case Store(_, data) => v.(contents := v.contents[n := data])
    case Mark(_) => v.(dirty := v.dirty + {n})
    case Release(_) => v.(busy := v.busy - {n})
  }

  /** The block that a step is about. */
  function BlockOf(c: Cache, a: Step): nat
    requires a.i < |c.bufs|
  {
    if a.Get? then a.n else c.bufs[a.i].blockno
  }

  lemma DirtyStep(c: Cache, a: Step, n: nat)
    requires CacheInv(c) && CanDo(c, a) && Obeys(c, a)
    ensures DirtyAt(Do(c, a), n) <==>
            if n == BlockOf(c, a) && a.Sync? then false
            else if n == BlockOf(c, a) && a.Mark? then true
            else DirtyAt(c, n)
  {
    var c' := Do(c, a);
    if DirtyAt(c, n) {
      var i :| 0 <= i < NBUF && Caches(c.bufs[i], n) && c.bufs[i].dirty;
      assert a.Get? && !Cached(c, a.n) ==> i != a.i;
      assert c'.bufs[i].dirty || a == Sync(i);
      assert i != a.i ==> c'.bufs[i] == c.bufs[i];
    }
    if DirtyAt(c', n) {
      var i :| 0 <= i < NBUF && Caches(c'.bufs[i], n) && c'.bufs[i].dirty;
      assert c.bufs[i].dirty || a == Mark(i);
    }
    assert Caches(c'.bufs[a.i], BlockOf(c, a));
  }

  lemma BusyStep(c: Cache, a: Step, n: nat)
    requires CacheInv(c) && CanDo(c, a) && Obeys(c, a)
    ensures BusyAt(Do(c, a), n) <==>
            if n == BlockOf(c, a) then !a.Release? else BusyAt(c, n)
  {
    var c' := Do(c, a);
    if BusyAt(c, n) {
      var i :| 0 <= i < NBUF && Caches(c.bufs[i], n) && c.bufs[i].busy;
      assert i != a.i ==> c'.bufs[i] == c.bufs[i];
      assert a.Get? && !Cached(c, a.n) ==> IsVictim(c, a.i) && i != a.i;
    }
    if BusyAt(c', n) {
      var i :| 0 <= i < NBUF && Caches(c'.bufs[i], n) && c'.bufs[i].busy;
      assert i != a.i ==> c'.bufs[i] == c.bufs[i];
    }
    assert Caches(c'.bufs[a.i], BlockOf(c, a));
  }

  lemma StepBounds(c: Cache, a: Step)
    requires CacheInv(c) && CanDo(c, a)
    ensures a.i < |c.bufs| && BlockOf(c, a) < |c.disk| && |Do(c, a).disk| == |c.disk|
    ensures !a.Get? ==> BusyAt(c, BlockOf(c, a))
  {
    if !a.Get? {
      assert Caches(c.bufs[a.i], BlockOf(c, a));
    }
  }

  /** The cache refines its view, step by step. */
  lemma CacheRefinesView(c: Cache, a: Step)
    requires CacheInv(c) && CanDo(c, a) && Obeys(c, a)
    ensures a.i < |c.bufs| && BlockOf(c, a) < |c.disk|
    ensures CacheInv(Do(c, a)) && ViewOf(Do(c, a)) == ViewStep(ViewOf(c), a, BlockOf(c, a))
  {
    hide Do, CanDo, Obeys, CacheInv, Logical, DirtyAt, BusyAt;
    InvStep(c, a);
    StepBounds(c, a);
    var c' := Do(c, a);
    var v, w := ViewOf(c'), ViewStep(ViewOf(c), a, BlockOf(c, a));
    forall n: nat | n < |c.disk|
      ensures v.contents[n] == w.contents[n] && (n in v.dirty <==> n in w.dirty) && (n in v.busy <==> n in w.busy)
    {
      LogicalStep(c, a, n);
      DirtyStep(c, a, n);
      BusyStep(c, a, n);
    }
    assert v.contents == w.contents;
  }

  /** A block that nobody holds or has pinned reads the same from cache and disk. */
  lemma CleanReadsDisk(c: Cache, n: nat)
    requires CacheInv(c) && n < |c.disk|
    requires n !in ViewOf(c).dirty && n !in ViewOf(c).busy
    ensures ViewOf(c).contents[n] == c.disk[n]
  {
    assert !DirtyAt(c, n) && !BusyAt(c, n);
    LogicalUncached(c, n);
  }

  /** bget cannot run out of buffers while fewer than NBUF blocks are held or pinned. */
  lemma RoomLeft(c: Cache)
    requires CacheInv(c) && |ViewOf(c).dirty + ViewOf(c).busy| < NBUF
    ensures exists i :: 0 <= i < NBUF && Free(c.bufs[i])
  {
    if forall i :: 0 <= i < NBUF ==> !Free(c.bufs[i]) {
      var blocks := seq(NBUF, i requires 0 <= i < NBUF => c.bufs[i].blockno);
      forall i | 0 <= i < NBUF
        ensures blocks[i] in ViewOf(c).dirty + ViewOf(c).busy && c.bufs[i].dev != NODEV
      {
        assert GoodBuf(c.bufs[i], c.disk) && !Free(c.bufs[i]);
        assert Caches(c.bufs[i], blocks[i]);
      }
      DistinctFit(blocks, ViewOf(c).dirty + ViewOf(c).busy);
    }
  }

  // ------------------------------------------------------- room for a block

  /** A free buffer is one that no held or pinned block takes up. */
  lemma {:induction false} TakenUp(c: Cache, s: set<nat>, k: nat, f: nat)
    requires k <= |c.bufs| && (f < |c.bufs| ==> Free(c.bufs[f]))
    requires forall n :: n in s ==> exists i :: 0 <= i < k && Caches(c.bufs[i], n) && !Free(c.bufs[i])
    ensures |s| <= k - (if f < k then 1 else 0)
    decreases k
  {
    if k == 0 {
      assert s == {};
    } else if f == k - 1 {
      TakenUp(c, s, k - 1, f);
    } else {
      var b := c.bufs[k - 1].blockno;
      forall n | n in s - {b}
        ensures exists i :: 0 <= i < k - 1 && Caches(c.bufs[i], n) && !Free(c.bufs[i])
      {
        var i :| 0 <= i < k && Caches(c.bufs[i], n) && !Free(c.bufs[i]);
        assert i != k - 1;
      }
      TakenUp(c, s - {b}, k - 1, f);
    }
  }

  /** There is a free buffer exactly while fewer than NBUF blocks are held or pinned. */
  lemma RoomExactly(c: Cache)
    requires CacheInv(c)
    ensures (exists i :: 0 <= i < NBUF && Free(c.bufs[i])) <==> |ViewOf(c).dirty + ViewOf(c).busy| < NBUF
  {
    if |ViewOf(c).dirty + ViewOf(c).busy| < NBUF {
      RoomLeft(c);
    }
    if i: nat :| i < NBUF && Free(c.bufs[i]) {
      forall n | n in ViewOf(c).dirty + ViewOf(c).busy
        ensures exists k :: 0 <= k < NBUF && Caches(c.bufs[k], n) && !Free(c.bufs[k])
      {
        assert DirtyAt(c, n) || BusyAt(c, n);
      }
      TakenUp(c, ViewOf(c).dirty + ViewOf(c).busy, NBUF, i);
    }
  }

  /** Never more than NBUF blocks are held or pinned. */
  lemma AllFit(c: Cache)
    requires CacheInv(c)
    ensures |ViewOf(c).dirty + ViewOf(c).busy| <= NBUF
  {
    forall n | n in ViewOf(c).dirty + ViewOf(c).busy
      ensures exists k :: 0 <= k < NBUF && Caches(c.bufs[k], n) && !Free(c.bufs[k])
    {
      assert DirtyAt(c, n) || BusyAt(c, n);
    }
    TakenUp(c, ViewOf(c).dirty + ViewOf(c).busy, NBUF, NBUF);
  }

  /** A block held that is not pinned leaves room beside the pinned blocks and those that others hold. */
  lemma SpareWhileHeld(c: Cache, n: nat, mine: set<nat>)
    requires CacheInv(c) && n in ViewOf(c).busy && n !in ViewOf(c).dirty && n in mine
    ensures |ViewOf(c).dirty + (ViewOf(c).busy - mine)| < NBUF
  {
    hide ViewOf;
    AllFit(c);
    var v := ViewOf(c);
    Basics.SubsetSize(v.dirty + (v.busy - mine), v.dirty + v.busy - {n});
  }

  /** bget for block n panics. */
  ghost predicate Starved(v: View, n: nat) {
    n !in v.dirty + v.busy && |v.dirty + v.busy| >= NBUF
  }

  /** bget finds neither the block nor a buffer for it exactly if the block is not among NBUF held or pinned ones. */
  lemma StarvedExactly(c: Cache, n: nat)
    requires CacheInv(c) && n < |c.disk|
    ensures Starved(ViewOf(c), n) <==> !Cached(c, n) && forall i :: 0 <= i < NBUF ==> !Free(c.bufs[i])
  {
    RoomExactly(c);
    if Cached(c, n) {
      var i :| 0 <= i < NBUF && Caches(c.bufs[i], n);
      assert Free(c.bufs[i]) || DirtyAt(c, n) || BusyAt(c, n);
    }
    if n in ViewOf(c).dirty + ViewOf(c).busy {
      assert Cached(c, n);
    }
  }

  // -------------------------------------------------- processes that only read

  /** The buffers in `mine` are held; those held by others are as on disk. */
  ghost predicate OthersClean(c: Cache, mine: set<nat>) {
    && (forall i :: i in mine ==> i < |c.bufs| && c.bufs[i].busy)
    && (forall i: nat :: i < |c.bufs| && i !in mine && c.bufs[i].busy ==> CleanBuf(c.bufs[i], c.disk))
  }

  predicate CleanBuf(b: Buf, disk: Disk) {
    b.valid && !b.dirty ==> b.blockno < |disk| && b.data == disk[b.blockno]
  }

  /** A block that is not pinned and not held by this process reads as on disk. */
  lemma UnheldReadsDisk(c: Cache, mine: set<nat>, n: nat)
    requires CacheInv(c) && OthersClean(c, mine) && n < |c.disk| && n !in ViewOf(c).dirty
    requires forall i :: i in mine ==> c.bufs[i].blockno != n
    ensures ViewOf(c).contents[n] == c.disk[n]
  {
    assert !DirtyAt(c, n);
    LogicalUncached(c, n);
  }
}
