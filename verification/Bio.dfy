/**
 bio.c and memide.c as they run: buffers linked into a ring through prev/next, flags and
 data updated in place. Every method is one locked section (or one iderw) and is proved to
 be the corresponding step of CacheModel.
 */
module Bio {
  import opened Basics
  import opened Blocks
  import opened CacheModel
  import opened CacheView

  /** What one pass of bget's scan comes to. */
  datatype Got = Granted(i: nat) | MustSleep(i: nat) | NoBuffers

  /** What another process, one that only reads, may do: bget, the read of iderw, brelse. */
  datatype Other = Fetch(n: nat) | Fill(i: nat) | Drop(i: nat)

  /** The k-th element of the ring that starts at the list head (index NBUF) and runs through `order`. */
  function At(order: seq<nat>, k: nat): nat {
    if 1 <= k <= |order| then order[k - 1] else NBUF
  }

  ghost predicate Linked(order: seq<nat>, next: seq<nat>, prev: seq<nat>) {
    && |next| == NBUF + 1 && |prev| == NBUF + 1
    && (forall i :: 0 <= i < |order| ==> order[i] < NBUF)
    && (forall i, j :: 0 <= i < j < |order| ==> order[i] != order[j])
    && (forall k :: 0 <= k <= |order| ==> next[At(order, k)] == At(order, k + 1) && prev[At(order, k + 1)] == At(order, k))
  }

  lemma UnlinkLinked(order: seq<nat>, next: seq<nat>, prev: seq<nat>, k: nat)
    requires Linked(order, next, prev) && k < |order|
    ensures next[order[k]] <= NBUF && prev[order[k]] <= NBUF
    ensures Linked(order[..k] + order[k + 1..], next[prev[order[k]] := next[order[k]]], prev[next[order[k]] := prev[order[k]]])
  {
    var b := order[k];
    assert At(order, k + 1) == b;
    assert next[b] == At(order, k + 2) && prev[b] == At(order, k);
    var o := order[..k] + order[k + 1..];
    var n, p := next[prev[b] := next[b]], prev[next[b] := prev[b]];
    forall m | 0 <= m <= |o|
      ensures n[At(o, m)] == At(o, m + 1) && p[At(o, m + 1)] == At(o, m)
    {
      assert At(o, m) == if m <= k then At(order, m) else At(order, m + 1);
      assert At(o, m + 1) == if m + 1 <= k then At(order, m + 1) else At(order, m + 2);
    }
  }

  lemma PushFrontLinked(order: seq<nat>, next: seq<nat>, prev: seq<nat>, b: nat)
    requires Linked(order, next, prev) && b < NBUF && b !in order
    ensures next[NBUF] <= NBUF
    ensures Linked([b] + order, next[b := next[NBUF]][NBUF := b], prev[b := NBUF][next[NBUF] := b])
  {
    assert next[At(order, 0)] == At(order, 1);
    var o := [b] + order;
    var n, p := next[b := next[NBUF]][NBUF := b], prev[b := NBUF][next[NBUF] := b];
    forall m | 0 <= m <= |o|
      ensures n[At(o, m)] == At(o, m + 1) && p[At(o, m + 1)] == At(o, m)
    {
      if m > 0 {
        assert At(o, m + 1) == At(order, m);
        if m > 1 {
          assert At(o, m) == At(order, m - 1);
        }
      }
    }
  }

  /** brelse's six pointer updates. */
  lemma RelinkFront(order: seq<nat>, next: seq<nat>, prev: seq<nat>, k: nat)
    requires Linked(order, next, prev) && k < |order|
    ensures |next| == |prev| == NBUF + 1 && order[k] < NBUF && next[order[k]] <= NBUF && prev[order[k]] <= NBUF
    ensures var b := order[k];
            var p1 := prev[next[b] := prev[b]];
            p1[b] <= NBUF &&
            var n1 := next[p1[b] := next[b]];
            n1[NBUF] <= NBUF &&
            Linked([b] + (order[..k] + order[k + 1..]), n1[b := n1[NBUF]][NBUF := b], p1[b := NBUF][n1[NBUF] := b])
  {
    var b := order[k];
    UnlinkLinked(order, next, prev, k);
    assert next[b] != b && prev[b] != b by {
      assert At(order, k + 1) == b;
      assert next[b] == At(order, k + 2) && prev[b] == At(order, k);
    }
    var rest := order[..k] + order[k + 1..];
    assert b !in rest;
    PushFrontLinked(rest, next[prev[b] := next[b]], prev[next[b] := prev[b]], b);
  }

  lemma ReleasePosition(c: Cache, i: nat) returns (k: nat)
    requires CacheInv(c) && i < NBUF
    ensures k < |c.order| && c.order[k] == i
    ensures MoveToFront(c.order, i) == [i] + (c.order[..k] + c.order[k + 1..])
  {
    k := Position(c.order, i);
    WithoutAt(c.order, k);
  }

  /** From view v to w, only what others hold may differ. */
  ghost predicate Undisturbed(v: View, w: View) {
    w.contents == v.contents && w.dirty == v.dirty
  }

  /** bread of block n would succeed, if everybody else stood still. */
  ghost predicate CanFetch(v: View, n: nat) {
    n !in v.busy && !Starved(v, n)
  }

  /** And then of block m. */
  ghost predicate CanFetchBoth(v: View, n: nat, m: nat) {
    CanFetch(v, n) && CanFetch(v.(busy := v.busy + {n}), m)
  }

  /** The blocks in these buffers. */
  ghost function Numbers(bufs: seq<Buf>, mine: set<nat>): set<nat> {
    set i | i in mine && i < |bufs| :: bufs[i].blockno
  }

  lemma NumbersAre(bufs: seq<Buf>, i: nat, j: nat)
    requires i < |bufs| && j < |bufs|
    ensures Numbers(bufs, {i, j}) == {bufs[i].blockno, bufs[j].blockno}
  {
    assert i in {i, j} && j in {i, j};
  }

  lemma NumberIs(bufs: seq<Buf>, i: nat)
    requires i < |bufs|
    ensures Numbers(bufs, {i}) == {bufs[i].blockno}
  {
    assert i in {i};
  }

  lemma NumbersStay(bufs: seq<Buf>, mine: set<nat>, i: nat, b: Buf)
    requires i < |bufs| && b.blockno == bufs[i].blockno
    ensures Numbers(bufs[i := b], mine) == Numbers(bufs, mine)
  {
    var more := bufs[i := b];
    forall n
      ensures n in Numbers(more, mine) <==> n in Numbers(bufs, mine)
    {
      if k :| k in mine && k < |bufs| && bufs[k].blockno == n {
        assert more[k].blockno == n;
      }
      if k :| k in mine && k < |more| && more[k].blockno == n {
        assert bufs[k].blockno == n;
      }
    }
  }

  class BufferCache {
    var bufs: seq<Buf>
    var next: seq<nat>
    var prev: seq<nat>
    var disk: Disk
    ghost var order: seq<nat>
    ghost var trace: seq<Disk>  // the disk after each block write
    ghost var seen: seq<set<nat>> // the blocks that others held at each
    var mine: set<nat>          // the buffers that this process holds
    var others: seq<seq<Other>> // what other processes will do, each time this one gives up the lock

    ghost function Model(): Cache
      reads this
    {
      Cache(bufs, order, disk)
    }

    /** The cache and its list are in good order, whatever the holders of buffers are about. */
    ghost predicate InOrder()
      reads this
    {
      CacheInv(Model()) && Linked(order, next, prev)
    }

    /** And the others have not changed the buffers that they hold. */
    ghost predicate Valid()
      reads this
    {
      InOrder() && OthersClean(Model(), mine)
    }

    ghost function View(): View
      reads this
    {
      ViewOf(Model())
    }

    /** The blocks that this process does not hold and somebody does. */
    ghost function HeldByOthers(): set<nat>
      reads this
    {
      View().busy - Numbers(bufs, mine)
    }

    /** binit */
    constructor (image: Disk, others: seq<seq<Other>>)
      ensures Valid() && Init(Model()) && disk == image && trace == [] && seen == [] && mine == {} && this.others == others
      ensures forall i :: 0 <= i < NBUF ==> order[i] == NBUF - 1 - i
    {
      bufs := seq(NBUF, _ => Buf(NODEV, 0, false, false, false, ZeroBlock()));
      next := seq(NBUF + 1, _ => NBUF);
      prev := seq(NBUF + 1, _ => NBUF);
      disk := image;
      order := [];
      trace, seen := [], [];
      mine := {};
      this.others := others;
      new;
      for b := 0 to NBUF
        invariant Linked(order, next, prev)
        invariant |order| == b && forall i :: 0 <= i < b ==> order[i] == b - 1 - i
        invariant disk == image && trace == [] && seen == [] && mine == {} && this.others == others
        invariant bufs == seq(NBUF, _ => Buf(NODEV, 0, false, false, false, ZeroBlock()))
      {
        PushFrontLinked(order, next, prev, b);
        prev := prev[b := NBUF][next[NBUF] := b];
        next := next[b := next[NBUF]][NBUF := b];
        order := [b] + order;
      }
    }

    /** bget's scans of the list for block n, and then for a buffer, under bcache.lock. */
    method Scan(n: nat) returns (r: Got)
      requires CacheInv(Model()) && Linked(order, next, prev) && n < |disk|
      modifies this`bufs
      ensures CacheInv(Model())
      ensures r.Granted? ==> CanDo(old(Model()), Get(n, r.i)) && Model() == Do(old(Model()), Get(n, r.i))
      ensures r.MustSleep? ==> Model() == old(Model()) && r.i < NBUF && Caches(bufs[r.i], n) && bufs[r.i].busy
      ensures r.NoBuffers? ==> Model() == old(Model()) && !Cached(Model(), n) &&
                               forall i :: 0 <= i < NBUF ==> !Free(bufs[i])
    {
      var b := next[NBUF];
      ghost var k: nat := 1;
      assert At(order, 0) == NBUF;
      while b != NBUF
        invariant 1 <= k <= NBUF + 1 && b == At(order, k)
        invariant forall j :: 1 <= j < k ==> !Caches(bufs[At(order, j)], n)
        decreases NBUF + 1 - k
      {
        if bufs[b].dev == ROOTDEV && bufs[b].blockno == n {
          assert Cached(Model(), n);
          if !bufs[b].busy {
            ghost var c := Model();
            assert CanDo(c, Get(n, b)) && Obeys(c, Get(n, b));
            InvStep(c, Get(n, b));
            bufs := bufs[b := bufs[b].(busy := true)];
            return Granted(b);
          }
          return MustSleep(b);
        }
        b := next[b];
        k := k + 1;
      }
      NotListed(bufs, order, k, n);
      b := prev[NBUF];
      k := NBUF;
      assert At(order, NBUF + 1) == NBUF;
      while b != NBUF
        invariant 0 <= k <= NBUF && b == At(order, k)
        invariant forall j :: k < j <= NBUF ==> !Free(bufs[At(order, j)])
        decreases k
      {
        if !bufs[b].busy && !bufs[b].dirty {
          ghost var c := Model();
          assert c.order[k - 1] == b;
          assert forall j :: k - 1 < j < |c.order| ==> c.order[j] == At(order, j + 1);
          assert IsVictim(c, b);
          assert CanDo(c, Get(n, b)) && Obeys(c, Get(n, b));
          InvStep(c, Get(n, b));
          bufs := bufs[b := Buf(ROOTDEV, n, true, false, false, bufs[b].data)];
          return Granted(b);
        }
        b := prev[b];
        k := k - 1;
      }
      NoneFree(bufs, order);
      return NoBuffers;
    }

    /** One pass of bget for block n: a buffer, or asleep if somebody holds the block, or no buffer. */
    method Bget(n: nat) returns (r: Got)
      requires Valid() && n < |disk|
      modifies this`bufs
      ensures Valid()
      ensures r.MustSleep? <==> n in old(View()).busy
      ensures r.NoBuffers? <==> Starved(old(View()), n)
      ensures !r.Granted? ==> bufs == old(bufs)
      ensures r.Granted? ==> CanDo(old(Model()), Get(n, r.i)) && Model() == Do(old(Model()), Get(n, r.i))
      ensures r.Granted? ==> View() == old(View()).(busy := old(View()).busy + {n})
      ensures r.Granted? ==> r.i < NBUF && Caches(bufs[r.i], n) && bufs[r.i].busy && !old(bufs[r.i]).busy
      ensures r.Granted? ==> forall j :: 0 <= j < NBUF && j != r.i ==> bufs[j] == old(bufs[j])
    {
      hide Linked, Permutation, Logical, ViewOf;
      ghost var c := Model();
      r := Scan(n);
      StarvedExactly(c, n);
      if r.Granted? {
        CacheRefinesView(c, Get(n, r.i));
        GetOutcome(c, n, r.i);
      } else if r.MustSleep? {
        HeldBusy(c, r.i);
      }
    }

    /** memide.c's iderw */
    method Iderw(i: nat)
      requires Valid() && CanDo(Model(), Sync(i)) && (bufs[i].dirty ==> i in mine)
      modifies this`bufs, this`disk, this`trace, this`seen
      ensures Valid() && Model() == Do(old(Model()), Sync(i))
      ensures trace == if old(bufs[i].dirty) then old(trace) + [disk] else old(trace)
      ensures seen == if old(bufs[i].dirty) then old(seen) + [old(HeldByOthers())] else old(seen)
    {
      hide Linked, Permutation, Logical;
      InvStep(Model(), Sync(i));
      SyncClean(Model(), mine, i);
      var b := bufs[i];
      if b.dirty {
        seen := seen + [HeldByOthers()];
        disk := disk[b.blockno := b.data];
        trace := trace + [disk];
        bufs := bufs[i := b.(dirty := false, valid := true)];
      } else {
        bufs := bufs[i := b.(data := disk[b.blockno], valid := true)];
      }
    }

    /** The holder of buffer i replaces its data. */
    method Modify(i: nat, data: Block)
      requires Valid() && CanDo(Model(), Store(i, data)) && i in mine
      modifies this`bufs
      ensures Valid() && Model() == Do(old(Model()), Store(i, data))
      ensures bufs == old(bufs)[i := old(bufs[i]).(data := data)] && bufs[i].blockno < |disk|
      ensures View() == old(View()).(contents := old(View()).contents[bufs[i].blockno := data])
    {
      hide Linked, Logical, ViewOf;
      CacheRefinesView(Model(), Store(i, data));
      bufs := bufs[i := bufs[i].(data := data)];
    }

    /** b->flags |= B_DIRTY, as in log_write and bwrite. */
    method SetDirty(i: nat)
      requires InOrder() && CanDo(Model(), Mark(i))
      modifies this`bufs
      ensures InOrder() && (old(Valid()) && i in mine ==> Valid()) && Model() == Do(old(Model()), Mark(i))
      ensures View() == old(View()).(dirty := old(View()).dirty + {bufs[i].blockno})
    {
      hide Linked, Logical, ViewOf;
      CacheRefinesView(Model(), Mark(i));
      bufs := bufs[i := bufs[i].(dirty := true)];
    }

    /**
     brelse: unlink, relink at the front of the ring, clear B_BUSY. The cache stays in good order
     exactly if the buffer is dirty or as on disk.
     */
    method Brelse(i: nat)
      requires Valid() && CanDo(Model(), Release(i))
      modifies this`bufs, this`next, this`prev, this`order, this`mine
      ensures Model() == Do(old(Model()), Release(i)) && Linked(order, next, prev) && mine == old(mine) - {i}
      ensures Valid() <==> Obeys(old(Model()), Release(i))
      ensures bufs == old(bufs)[i := old(bufs[i]).(busy := false)]
      ensures Valid() ==> View() == old(View()).(busy := old(View()).busy - {bufs[i].blockno})
    {
      assert i < NBUF;
      hide Linked, Logical, Permutation, Without, ViewOf;
      ReleaseObeys(Model(), mine, i);
      ghost var k := ReleasePosition(Model(), i);
      ghost var rest := order[..k] + order[k + 1..];
      RelinkFront(order, next, prev, k);
      prev := prev[next[i] := prev[i]];
      next := next[prev[i] := next[i]];
      prev := prev[i := NBUF][next[NBUF] := i];
      next := next[i := next[NBUF]][NBUF := i];
      order := [i] + rest;
      bufs := bufs[i := bufs[i].(busy := false)];
      mine := mine - {i};
    }

    /** One step of another process, if it is one that it can take. */
    method OtherStep(o: Other)
      requires Valid()
      modifies this`bufs, this`next, this`prev, this`order, this`mine
      ensures Valid() && mine == old(mine) && Undisturbed(old(View()), View())
      ensures forall j :: j in mine ==> j < |bufs| && j < |old(bufs)| && bufs[j] == old(bufs[j])
    {
      hide Linked, Logical, Permutation, ViewOf, CacheInv;
      OwnBuffers(Model(), mine);
      match o
      case Fetch(n) =>
        if n < |disk| {
          var _ := Bget(n);
        }
      case Fill(i) =>
        if i < NBUF && i !in mine && bufs[i].busy && !bufs[i].valid {
          FillStep(Model(), mine, i);
          bufs := bufs[i := bufs[i].(data := disk[bufs[i].blockno], valid := true)];
        }
      case Drop(i) =>
        if i < NBUF && i !in mine && bufs[i].busy && bufs[i].valid {
          DropStep(Model(), mine, i);
          Brelse(i);
        }
    }

    /** What the others do while this process does not have the lock. */
    method Interfere()
      requires Valid()
      modifies this`bufs, this`next, this`prev, this`order, this`mine, this`others
      ensures Valid() && mine == old(mine) && Undisturbed(old(View()), View())
      ensures forall j :: j in mine ==> j < |bufs| && j < |old(bufs)| && bufs[j] == old(bufs[j])
      ensures others == if old(others) == [] then [] else old(others)[1..]
      ensures old(others) == [] ==> Model() == old(Model())
    {
      hide Linked, ViewOf, CacheInv, OthersClean;
      OwnBuffers(Model(), mine);
      if others != [] {
        var steps := others[0];
        others := others[1..];
        for k := 0 to |steps|
          invariant Valid() && mine == old(mine) && Undisturbed(old(View()), View()) && others == old(others)[1..]
          invariant forall j :: j in mine ==> j < |bufs| && j < |old(bufs)| && bufs[j] == old(bufs[j])
        {
          OtherStep(steps[k]);
        }
      }
    }

    ghost predicate Holds(i: nat, n: nat)
      reads this
    {
      && i < NBUF == |bufs| && n < |disk| && bufs[i].valid && bufs[i].busy && bufs[i].dev == ROOTDEV && bufs[i].blockno == n
      && bufs[i].data == View().contents[n] && (bufs[i].dirty <==> n in View().dirty)
    }

    /** The second half of bread, for the buffer that bget granted. */
    method FillMine(i: nat, n: nat)
      requires Valid() && i < NBUF && i !in mine && n < |disk| && Caches(bufs[i], n) && bufs[i].busy
      modifies this`bufs, this`disk, this`trace, this`seen, this`mine
      ensures Valid() && disk == old(disk) && trace == old(trace) && seen == old(seen) && View() == old(View())
      ensures mine == old(mine) + {i} && Holds(i, n)
      ensures |bufs| == |old(bufs)| && forall j :: 0 <= j < |bufs| && j != i ==> bufs[j] == old(bufs[j])
    {
      hide Linked, Permutation, Logical;
      ghost var c := Model();
      HeldDirty(c, i);
      if !bufs[i].valid {
        FillStep(c, mine, i);
        CacheRefinesView(c, Sync(i));
        Iderw(i);
      }
      HeldDirty(Model(), i);
      LogicalCached(Model(), i);
      mine := mine + {i};
    }

    /**
     bread. Between its attempts the others go on; it is still asleep at the end if they
     never give up the block.
     */
    method Bread(n: nat) returns (r: Got)
      requires Valid() && n < |disk|
      modifies this
      ensures Valid() && disk == old(disk) && trace == old(trace) && seen == old(seen) && Undisturbed(old(View()), View())
      ensures forall j :: j in old(mine) ==> j < |bufs| && j < |old(bufs)| && bufs[j] == old(bufs[j])
      ensures r.Granted? ==> r.i !in old(mine) && mine == old(mine) + {r.i} && Holds(r.i, n)
      ensures !r.Granted? ==> mine == old(mine)
      ensures r.MustSleep? ==> n in View().busy && others == []
      ensures r.NoBuffers? ==> Starved(View(), n)
      ensures r.Granted? && n !in View().dirty ==> |View().dirty + (View().busy - {n})| < NBUF
      ensures old(others) == [] ==> others == [] && (r.MustSleep? <==> n in old(View()).busy) && (r.NoBuffers? <==> Starved(old(View()), n))
      ensures old(others) == [] ==> View() == if r.Granted? then old(View()).(busy := old(View()).busy + {n}) else old(View())
    {
      hide Linked, ViewOf, CacheInv, OthersClean, Starved;
      OwnBuffers(Model(), mine);
      ghost var v := View();
      while true
        invariant Valid() && mine == old(mine) && disk == old(disk) && trace == old(trace) && seen == old(seen) && Undisturbed(v, View())
        invariant forall j :: j in mine ==> j < |bufs| && j < |old(bufs)| && bufs[j] == old(bufs[j])
        invariant old(others) == [] ==> others == [] && Model() == old(Model())
        decreases |others|
      {
        ghost var last := others == [];
        Interfere();
        OwnBuffers(Model(), mine);
        ghost var u := View();
        r := Bget(n);
        if r.NoBuffers? {
          return;
        }
        if r.Granted? {
          ghost var w := View();
          FillMine(r.i, n);
          assert w.busy - {n} == u.busy;
          NotStarved(u, n);
          return;
        }
        if others == [] {
          return;
        }
      }
    }

    /** bwrite */
    method Bwrite(i: nat)
      requires Valid() && i in mine && bufs[i].valid
      modifies this`bufs, this`disk, this`trace, this`seen
      ensures Valid() && i < |bufs| && bufs[i].blockno < |old(disk)| && seen == old(seen) + [old(HeldByOthers())]
      ensures disk == old(disk)[bufs[i].blockno := bufs[i].data] && trace == old(trace) + [disk]
      ensures bufs == old(bufs)[i := old(bufs[i]).(dirty := false)]
      ensures View() == old(View()).(dirty := old(View()).dirty - {bufs[i].blockno})
    {
      hide Linked, Logical, Permutation, Numbers;
      NumbersStay(bufs, mine, i, bufs[i].(dirty := true));
      SetDirty(i);
      CacheRefinesView(Model(), Sync(i));
      Iderw(i);
    }

    /** bread of n and, if that gives a buffer, of m. */
    method BreadTwo(n: nat, m: nat) returns (a: Got, b: Got)
      requires Valid() && mine == {} && n < |disk| && m < |disk| && n != m
      modifies this
      ensures disk == old(disk) && trace == old(trace) && seen == old(seen) && Undisturbed(old(View()), View())
      ensures b.Granted? ==> a.Granted? && Valid() && mine == {a.i, b.i} && a.i != b.i && Holds(a.i, n) && Holds(b.i, m)
      ensures b.Granted? && n !in View().dirty ==> |View().dirty| < NBUF
      ensures old(others) == [] ==> (b.Granted? <==> CanFetchBoth(old(View()), n, m))
      ensures old(others) == [] && b.Granted? ==> others == [] && View().busy - {n, m} == old(View()).busy
    {
      hide CacheInv, Linked, ViewOf, OthersClean, Starved;
      a := Bread(n);
      b := a;
      if !a.Granted? {
        b := NoBuffers;
        return;
      }
      SubsetSize(View().dirty, View().dirty + (View().busy - {n}));
      ghost var v := View();
      b := Bread(m);
      assert b.Granted? ==> Holds(a.i, n);
    }

    /** Change the data of the one buffer held, then bwrite and brelse it. */
    method WriteAndRelease(i: nat, data: Block)
      requires Valid() && mine == {i} && bufs[i].valid && bufs[i].blockno < |disk|
      modifies this
      ensures Valid() && mine == {} && others == old(others) && disk == old(disk)[old(bufs[i]).blockno := data]
      ensures trace == old(trace) + [disk] && seen == old(seen) + [old(View()).busy - {old(bufs[i]).blockno}]
      ensures View() == CacheView.View.View(old(View()).contents[old(bufs[i]).blockno := data],
                             old(View()).dirty - {old(bufs[i]).blockno}, old(View()).busy - {old(bufs[i]).blockno})
    {
      OwnBuffers(Model(), mine);
      hide CacheInv, Linked, ViewOf, OthersClean, Numbers;
      Modify(i, data);
      NumberIs(bufs, i);
      Bwrite(i);
      Brelse(i);
    }

    /** memmove(dst->data, src->data); bwrite(dst); brelse(src); brelse(dst) */
    method CopyAndWrite(src: nat, dst: nat)
      requires Valid() && mine == {src, dst} && src != dst && bufs[src].valid && bufs[dst].valid
      requires bufs[src].blockno < |disk| && bufs[dst].blockno < |disk| && bufs[src].blockno != bufs[dst].blockno
      requires bufs[src].dirty || bufs[src].data == disk[bufs[src].blockno]
      modifies this
      ensures Valid() && mine == {} && others == old(others) && disk == old(disk)[old(bufs[dst]).blockno := old(bufs[src]).data]
      ensures trace == old(trace) + [disk]
      ensures seen == old(seen) + [old(View()).busy - {old(bufs[src]).blockno, old(bufs[dst]).blockno}]
      ensures View() == CacheView.View.View(old(View()).contents[old(bufs[dst]).blockno := old(bufs[src]).data],
                             old(View()).dirty - {old(bufs[dst]).blockno},
                             old(View()).busy - {old(bufs[src]).blockno, old(bufs[dst]).blockno})
    {
      OwnBuffers(Model(), mine);
      hide CacheInv, Linked, ViewOf, OthersClean, Numbers, Do;
      NumbersAre(bufs, src, dst);
      WriteCopy(src, dst);
      Brelse(src);
      Brelse(dst);
    }

    method WriteCopy(src: nat, dst: nat)
      requires Valid() && src in mine && dst in mine && src != dst && bufs[src].valid && bufs[dst].valid && bufs[dst].blockno < |disk|
      modifies this`bufs, this`disk, this`trace, this`seen
      ensures Valid() && disk == old(disk)[old(bufs[dst]).blockno := old(bufs[src]).data] && trace == old(trace) + [disk]
      ensures seen == old(seen) + [old(HeldByOthers())]
      ensures bufs == old(bufs)[dst := old(bufs[dst]).(data := old(bufs[src]).data, dirty := false)]
      ensures View() == old(View()).(contents := old(View()).contents[old(bufs[dst]).blockno := old(bufs[src]).data],
                                     dirty := old(View()).dirty - {old(bufs[dst]).blockno})
    {
      OwnBuffers(Model(), mine);
      hide CacheInv, Linked, ViewOf, OthersClean, Numbers;
      NumbersStay(bufs, mine, dst, bufs[dst].(data := bufs[src].data));
      Modify(dst, bufs[src].data);
      Bwrite(dst);
    }
  }

  lemma HeldDirty(c: Cache, i: nat)
    requires CacheInv(c) && i < NBUF && c.bufs[i].dev != NODEV
    ensures c.bufs[i].dirty <==> c.bufs[i].blockno in ViewOf(c).dirty
  {
    assert Caches(c.bufs[i], c.bufs[i].blockno);
  }

  lemma NotListed(bufs: seq<Buf>, order: seq<nat>, k: nat, n: nat)
    requires |bufs| == NBUF && Permutation(order) && 1 <= k <= NBUF + 1 && At(order, k) == NBUF
    requires forall j :: 1 <= j < k ==> !Caches(bufs[At(order, j)], n)
    ensures forall i :: 0 <= i < NBUF ==> !Caches(bufs[i], n)
  {
    forall i | 0 <= i < NBUF
      ensures !Caches(bufs[i], n)
    {
      var p := Position(order, i);
      assert At(order, p + 1) == i;
    }
  }

  lemma NoneFree(bufs: seq<Buf>, order: seq<nat>)
    requires |bufs| == NBUF && Permutation(order)
    requires forall j :: 1 <= j <= NBUF ==> !Free(bufs[At(order, j)])
    ensures forall i :: 0 <= i < NBUF ==> !Free(bufs[i])
  {
    forall i | 0 <= i < NBUF
      ensures !Free(bufs[i])
    {
      var p := Position(order, i);
      assert At(order, p + 1) == i;
    }
  }

  lemma HeldBusy(c: Cache, i: nat)
    requires CacheInv(c) && i < NBUF && c.bufs[i].busy
    ensures c.bufs[i].blockno < |c.disk| && c.bufs[i].blockno in ViewOf(c).busy
  {
    assert Caches(c.bufs[i], c.bufs[i].blockno);
  }

  /** A granted block was held by nobody, and it was pinned or there was room for it. */
  lemma GetOutcome(c: Cache, n: nat, i: nat)
    requires CacheInv(c) && CanDo(c, Get(n, i))
    ensures n !in ViewOf(c).busy && !Starved(ViewOf(c), n)
    ensures i < NBUF && !c.bufs[i].busy && CleanBuf(Do(c, Get(n, i)).bufs[i], c.disk)
  {
    StarvedExactly(c, n);
    assert !c.bufs[i].busy;
  }

  lemma SyncClean(c: Cache, mine: set<nat>, i: nat)
    requires CacheInv(c) && OthersClean(c, mine) && CanDo(c, Sync(i)) && (c.bufs[i].dirty ==> i in mine)
    ensures OthersClean(Do(c, Sync(i)), mine)
  {
    forall k: nat | k < |c.bufs| && k !in mine && c.bufs[k].busy && k != i
      ensures CleanBuf(c.bufs[k], Do(c, Sync(i)).disk)
    {
      assert CleanBuf(c.bufs[k], c.disk) && c.bufs[k].blockno != c.bufs[i].blockno;
    }
  }

  lemma ReleaseObeys(c: Cache, mine: set<nat>, i: nat)
    requires CacheInv(c) && OthersClean(c, mine) && CanDo(c, Release(i))
    ensures var d := Do(c, Release(i));
            && (CacheInv(d) && OthersClean(d, mine - {i}) <==> Obeys(c, Release(i)))
            && (Obeys(c, Release(i)) ==> ViewOf(d) == ViewOf(c).(busy := ViewOf(c).busy - {c.bufs[i].blockno}))
  {
    if Obeys(c, Release(i)) {
      CacheRefinesView(c, Release(i));
    } else {
      assert !GoodBuf(Do(c, Release(i)).bufs[i], c.disk);
    }
  }

  /** Another process reads the block of a buffer that it holds. */
  lemma FillStep(c: Cache, mine: set<nat>, i: nat)
    requires CacheInv(c) && OthersClean(c, mine) && i < NBUF && i !in mine && c.bufs[i].busy && !c.bufs[i].valid
    ensures CanDo(c, Sync(i)) && !c.bufs[i].dirty
    ensures var d := Do(c, Sync(i));
            CacheInv(d) && OthersClean(d, mine) && Undisturbed(ViewOf(c), ViewOf(d))
  {
    InvStep(c, Sync(i));
    SyncClean(c, mine, i);
    CacheRefinesView(c, Sync(i));
    HeldDirty(c, i);
  }

  /** Another process gives up a buffer that it has not changed. */
  lemma DropStep(c: Cache, mine: set<nat>, i: nat)
    requires CacheInv(c) && OthersClean(c, mine) && i < NBUF && i !in mine && c.bufs[i].busy && c.bufs[i].valid
    ensures CanDo(c, Release(i)) && Obeys(c, Release(i))
  {
    assert CleanBuf(c.bufs[i], c.disk) && GoodBuf(c.bufs[i], c.disk);
  }

  lemma OwnBuffers(c: Cache, mine: set<nat>)
    requires CacheInv(c) && OthersClean(c, mine)
    ensures |c.bufs| == NBUF && forall j :: j in mine ==> j < NBUF && c.bufs[j].busy
  {
  }

  lemma NotStarved(v: View, n: nat)
    requires !Starved(v, n) && n !in v.busy
    ensures n !in v.dirty ==> |v.dirty + v.busy| < NBUF
  {
  }
}
