/**
 The buffer cache (bio.c) over a synchronous disk (memide.c), as values: buffers, their
 recency order and the disk, and what each locked section does to them.
 */
module CacheModel {
  import opened Blocks

  const NBUF: nat := 30
  const NODEV: int := -1
  const ROOTDEV: int := 1

  datatype Buf = Buf(dev: int, blockno: nat, busy: bool, valid: bool, dirty: bool, data: Block)

  /** `order` lists buffer indices, most recently released first. */
  datatype Cache = Cache(bufs: seq<Buf>, order: seq<nat>, disk: Disk)

  predicate Caches(b: Buf, n: nat) {
    b.dev == ROOTDEV && b.blockno == n
  }

  predicate Free(b: Buf) {
    !b.busy && !b.dirty
  }

  ghost predicate Permutation(order: seq<nat>) {
    && |order| == NBUF
    && (forall i :: 0 <= i < |order| ==> order[i] < NBUF)
    && (forall i, j :: 0 <= i < j < |order| ==> order[i] != order[j])
  }

  /** No block has two buffers. */
  ghost predicate Unique(bufs: seq<Buf>) {
    forall i, j :: 0 <= i < j < |bufs| && bufs[i].dev != NODEV && bufs[j].dev != NODEV ==>
      bufs[i].blockno != bufs[j].blockno
  }

  ghost predicate GoodBuf(b: Buf, disk: Disk) {
    && (b.dev == NODEV ==> !b.busy && !b.valid && !b.dirty)
    && (b.dev != NODEV ==> b.dev == ROOTDEV && b.blockno < |disk|)
    && (b.dirty ==> b.valid)
    && (b.dev != NODEV && !b.busy ==> b.valid)
    && (b.valid && Free(b) ==> b.data == disk[b.blockno])
  }

  ghost predicate CacheInv(c: Cache) {
    && |c.bufs| == NBUF
    && Permutation(c.order)
    && Unique(c.bufs)
    && forall i :: 0 <= i < NBUF ==> GoodBuf(c.bufs[i], c.disk)
  }

  /** What a reader of block n must see: the cached copy if there is one, else the disk. */
  ghost function Logical(c: Cache, n: nat): Block
    requires n < |c.disk|
  {
    if exists i :: 0 <= i < |c.bufs| && Caches(c.bufs[i], n) && c.bufs[i].valid
    then var i :| 0 <= i < |c.bufs| && Caches(c.bufs[i], n) && c.bufs[i].valid; c.bufs[i].data
    else c.disk[n]
  }

  lemma LogicalCached(c: Cache, i: nat)
    requires CacheInv(c) && i < NBUF && c.bufs[i].valid
    ensures c.bufs[i].blockno < |c.disk| && Logical(c, c.bufs[i].blockno) == c.bufs[i].data
  {
    assert Caches(c.bufs[i], c.bufs[i].blockno);
  }

  lemma LogicalUncached(c: Cache, n: nat)
    requires CacheInv(c) && n < |c.disk|
    requires forall i :: 0 <= i < NBUF && Caches(c.bufs[i], n) ==> c.bufs[i].valid ==> c.bufs[i].data == c.disk[n]
    ensures Logical(c, n) == c.disk[n]
  {
  }

  /** The least recently released buffer that is neither busy nor dirty. */
  ghost predicate IsVictim(c: Cache, v: nat) {
    exists k :: 0 <= k < |c.order| && c.order[k] == v && v < |c.bufs| && Free(c.bufs[v]) &&
                forall j :: k < j < |c.order| ==> c.order[j] < |c.bufs| ==> !Free(c.bufs[c.order[j]])
  }

  // ----------------------------------------------------------------- steps

  datatype Step =
    | Get(n: nat, i: nat)         // bget hands out buffer i for block n
    | Sync(i: nat)                // iderw
    | Store(i: nat, data: Block)  // the holder changes the data
    | Mark(i: nat)                // log_write, or bwrite before iderw: set B_DIRTY
    | Release(i: nat)             // brelse

  ghost predicate Cached(c: Cache, n: nat) {
    exists i :: 0 <= i < |c.bufs| && Caches(c.bufs[i], n)
  }

  ghost predicate CanDo(c: Cache, a: Step) {
    match a
    case Get(n, i) =>
      && n < |c.disk| && i < |c.bufs|
      && (Cached(c, n) ==> Caches(c.bufs[i], n) && !c.bufs[i].busy)
      && (!Cached(c, n) ==> IsVictim(c, i))
    case Sync(i) =>
      i < |c.bufs| && c.bufs[i].busy && !(c.bufs[i].valid && !c.bufs[i].dirty) && c.bufs[i].blockno < |c.disk|
    case Store(i, _) => i < |c.bufs| && c.bufs[i].busy && c.bufs[i].valid
    case Mark(i) => i < |c.bufs| && c.bufs[i].busy && c.bufs[i].valid
    case Release(i) => i < |c.bufs| && c.bufs[i].busy && c.bufs[i].valid
  }

  /** The client's side: changes are logged or written before the buffer is released. */
  ghost predicate Obeys(c: Cache, a: Step)
    requires CanDo(c, a)
  {
    a.Release? ==> c.bufs[a.i].dirty || (c.bufs[a.i].blockno < |c.disk| && c.bufs[a.i].data == c.disk[c.bufs[a.i].blockno])
  }

  function MoveToFront(order: seq<nat>, b: nat): seq<nat> {
    [b] + Without(order, b)
  }

  function Without(order: seq<nat>, b: nat): seq<nat> {
    if order == [] then []
    else if order[0] == b then order[1..]
    else [order[0]] + Without(order[1..], b)
  }

  ghost function Do(c: Cache, a: Step): Cache
    requires CanDo(c, a)
  {
    var b := c.bufs[a.i];
    match a
    case Get(n, i) =>
      if Cached(c, n) then c.(bufs := c.bufs[i := b.(busy := true)])
      else c.(bufs := c.bufs[i := Buf(ROOTDEV, n, true, false, false, b.data)])
    case Sync(i) =>
      if b.dirty then c.(disk := c.disk[b.blockno := b.data], bufs := c.bufs[i := b.(dirty := false, valid := true)])
      else c.(bufs := c.bufs[i := b.(data := c.disk[b.blockno], valid := true)])
    case Store(i, data) => c.(bufs := c.bufs[i := b.(data := data)])
    case Mark(i) => c.(bufs := c.bufs[i := b.(dirty := true)])
    case Release(i) => c.(bufs := c.bufs[i := b.(busy := false)], order := MoveToFront(c.order, i))
  }

  lemma {:induction false} WithoutAt(order: seq<nat>, k: nat)
    requires k < |order|
    requires forall i, j :: 0 <= i < j < |order| ==> order[i] != order[j]
    ensures Without(order, order[k]) == order[..k] + order[k + 1..]
  {
    if k > 0 {
      WithoutAt(order[1..], k - 1);
      assert order[..k] + order[k + 1..] == [order[0]] + (order[1..][..k - 1] + order[1..][k..]);
    }
  }

  lemma {:induction false} DistinctFit(s: seq<nat>, bound: set<nat>)
    requires forall i, j :: 0 <= i < j < |s| ==> s[i] != s[j]
    requires forall i :: 0 <= i < |s| ==> s[i] in bound
    ensures |s| <= |bound|
  {
    if s != [] {
      DistinctFit(s[1..], bound - {s[0]});
    }
  }

  ghost function Below(n: nat): (s: set<nat>)
    ensures |s| == n && forall i: nat :: i in s <==> i < n
  {
    if n == 0 then {} else Below(n - 1) + {n - 1}
  }

  lemma AllThere(order: seq<nat>, n: nat, b: nat)
    requires |order| == n && b < n
    requires forall i :: 0 <= i < |order| ==> order[i] < n
    requires forall i, j :: 0 <= i < j < |order| ==> order[i] != order[j]
    ensures b in order
  {
    if b !in order {
      DistinctFit(order, Below(n) - {b});
    }
  }

  /** Every buffer is somewhere in a permutation. */
  lemma Position(order: seq<nat>, b: nat) returns (k: nat)
    requires Permutation(order) && b < NBUF
    ensures k < NBUF && order[k] == b
  {
    AllThere(order, NBUF, b);
    k :| 0 <= k < |order| && order[k] == b;
  }

  lemma MoveToFrontPermutes(order: seq<nat>, b: nat)
    requires Permutation(order) && b < NBUF
    ensures Permutation(MoveToFront(order, b))
  {
    var k := Position(order, b);
    WithoutAt(order, k);
  }

  lemma InvStep(c: Cache, a: Step)
    requires CacheInv(c) && CanDo(c, a) && Obeys(c, a)
    ensures CacheInv(Do(c, a))
  {
    if a.Release? {
      MoveToFrontPermutes(c.order, a.i);
    }
  }

  /** Only a holder's change alters what readers see, and only of that block. */
  lemma LogicalStep(c: Cache, a: Step, n: nat)
    requires CacheInv(c) && CanDo(c, a) && Obeys(c, a) && n < |c.disk|
    ensures CacheInv(Do(c, a))
    ensures Logical(Do(c, a), n) ==
            if a.Store? && c.bufs[a.i].blockno == n then a.data else Logical(c, n)
  {
    InvStep(c, a);
    var c' := Do(c, a);
    if i :| 0 <= i < NBUF && Caches(c'.bufs[i], n) && c'.bufs[i].valid {
      LogicalCached(c', i);
      if c.bufs[i].valid && Caches(c.bufs[i], n) {
        LogicalCached(c, i);
      } else {
        LogicalUncached(c, n);
      }
    } else {
      LogicalUncached(c', n);
      if i :| 0 <= i < NBUF && Caches(c.bufs[i], n) && c.bufs[i].valid {
        assert !(Caches(c'.bufs[i], n) && c'.bufs[i].valid);
        assert i == a.i && a.Get? && IsVictim(c, i) && Free(c.bufs[i]);
        LogicalCached(c, i);
      } else {
        LogicalUncached(c, n);
      }
    }
  }

  // ------------------------------------------------------------ whole runs

  ghost predicate CanRun(c: Cache, steps: seq<Step>)
    decreases |steps|
  {
    steps != [] ==> CanDo(c, steps[0]) && Obeys(c, steps[0]) && CanRun(Do(c, steps[0]), steps[1..])
  }

  ghost function End(c: Cache, steps: seq<Step>): Cache
    requires CanRun(c, steps)
    decreases |steps|
  {
    if steps == [] then c else End(Do(c, steps[0]), steps[1..])
  }

  /** Contents of block n after the holders' changes along a run, starting from `b`. */
  ghost function Latest(c: Cache, steps: seq<Step>, n: nat, b: Block): Block
    requires CanRun(c, steps)
    decreases |steps|
  {
    if steps == [] then b
    else
      var a := steps[0];
      Latest(Do(c, a), steps[1..], n, if a.Store? && c.bufs[a.i].blockno == n then a.data else b)
  }

  /** Fresh cache: no buffer holds a block. */
  ghost predicate Init(c: Cache) {
    && |c.bufs| == NBUF && Permutation(c.order)
    && forall i :: 0 <= i < NBUF ==>
         c.bufs[i].dev == NODEV && !c.bufs[i].busy && !c.bufs[i].valid && !c.bufs[i].dirty
  }

  lemma {:induction false} RunKeepsInv(c: Cache, steps: seq<Step>)
    requires CacheInv(c) && CanRun(c, steps)
    ensures CacheInv(End(c, steps)) && |End(c, steps).disk| == |c.disk|
    decreases |steps|
  {
    if steps != [] {
      InvStep(c, steps[0]);
      RunKeepsInv(Do(c, steps[0]), steps[1..]);
    }
  }

  lemma {:induction false} RunKeepsLatest(c: Cache, steps: seq<Step>, n: nat)
    requires CacheInv(c) && CanRun(c, steps) && n < |c.disk|
    ensures n < |End(c, steps).disk| && Logical(End(c, steps), n) == Latest(c, steps, n, Logical(c, n))
    decreases |steps|
  {
    if steps != [] {
      LogicalStep(c, steps[0], n);
      RunKeepsLatest(Do(c, steps[0]), steps[1..], n);
    }
  }

  /**
   Over every run of clients that log or write each change before releasing the buffer:
   a holder of block n sees the latest contents anybody gave it, buffers are recycled only
   when their contents are on disk, and no block ever has two buffers.
   */
  lemma ReadersSeeLatest(c: Cache, steps: seq<Step>, i: nat)
    requires Init(c) && CanRun(c, steps) && i < NBUF
    ensures var e := End(c, steps);
            && CacheInv(e)
            && (e.bufs[i].valid ==>
                  e.bufs[i].blockno < |c.disk| &&
                  e.bufs[i].data == Latest(c, steps, e.bufs[i].blockno, c.disk[e.bufs[i].blockno]))
  {
    RunKeepsInv(c, steps);
    var e := End(c, steps);
    if e.bufs[i].valid {
      var n := e.bufs[i].blockno;
      RunKeepsLatest(c, steps, n);
      LogicalCached(e, i);
      LogicalUncached(c, n);
    }
  }

  // --------------------------------------------------------------- recency

  /** When each buffer was last released, given the times before a run that starts at time t. */
  function ReleaseTimes(times: seq<int>, steps: seq<Step>, t: int): (r: seq<int>)
    ensures |r| == |times|
    decreases |steps|
  {
    if steps == [] then times
    else
      var a := steps[0];
      ReleaseTimes(if a.Release? && a.i < |times| then times[a.i := t] else times, steps[1..], t + 1)
  }

  /** Later release times come first. */
  ghost predicate ByTime(order: seq<nat>, times: seq<int>) {
    && |times| == NBUF && Permutation(order)
    && forall p, q :: 0 <= p < q < NBUF ==> times[order[p]] > times[order[q]]
  }

  lemma MoveToFrontByTime(order: seq<nat>, times: seq<int>, b: nat, t: int)
    requires ByTime(order, times) && b < NBUF
    requires forall i :: 0 <= i < NBUF ==> times[i] < t
    ensures ByTime(MoveToFront(order, b), times[b := t])
  {
    hide Without;
    var k := Position(order, b);
    WithoutAt(order, k);
    MoveToFrontPermutes(order, b);
    var o, ts := MoveToFront(order, b), times[b := t];
    assert forall p :: 0 < p < NBUF ==> o[p] == (if p <= k then order[p - 1] else order[p]) && ts[o[p]] == times[o[p]];
  }

  /** The list is in release order: bget's backward scan meets the longest-unused buffers first. */
  lemma {:induction false} ListIsByRecency(c: Cache, steps: seq<Step>, times: seq<int>, t: int)
    requires CacheInv(c) && CanRun(c, steps) && ByTime(c.order, times)
    requires forall i :: 0 <= i < NBUF ==> times[i] < t
    ensures ByTime(End(c, steps).order, ReleaseTimes(times, steps, t))
    decreases |steps|
  {
    if steps != [] {
      var a := steps[0];
      InvStep(c, a);
      if a.Release? {
        MoveToFrontByTime(c.order, times, a.i, t);
        ListIsByRecency(Do(c, a), steps[1..], times[a.i := t], t + 1);
      } else {
        ListIsByRecency(Do(c, a), steps[1..], times, t + 1);
      }
    }
  }
}
