/**
 umalloc.c as it runs: headers linked through ptr and size, `freep` roving round the ring.
 Addresses are counted in header-sized units; 0 is the null pointer. What sbrk would answer
 is a parameter of malloc.
 */
module Umalloc {
  import opened Basics
  import Blocks
  import opened FreeList

  const HEADER: nat := 8  // sizeof(Header)
  const MINCORE: nat := 4096

  const KERNBASE: nat := 0x8000_0000

  /** What malloc comes to: a block's data area, 0, or a block for which sbrk gave no memory. */
  datatype Answer = Got(ap: nat) | Refused | Unbacked

  // --------------------------------------------------------------- sbrk

  /** Units that morecore asks for. */
  function CoreUnits(nu: nat): nat {
    if nu < MINCORE then MINCORE else nu
  }

  /** nu * sizeof(Header) as sbrk's int parameter gets it. */
  function SbrkArg(nu: nat): int {
    var w := nu * HEADER % Blocks.TWO32;
    if w < 0x8000_0000 then w else w - Blocks.TWO32
  }

  /**
   growproc on a process of sz bytes: the new size, or none for -1. `enough` tells whether there
   are frames for growth. Sizes are unsigned and wrap around; allocuvm refuses sizes from KERNBASE
   on, and deallocuvm leaves the size alone when the new one is not below it.
   */
  function Growproc(sz: nat, n: int, enough: bool): Option<nat> {
    var to := (sz + n) % Blocks.TWO32;
    if n == 0 then Some(sz)
    else if n > 0 then
      if to >= KERNBASE || (to >= sz && !enough) then None else if to < sz then Some(sz) else Some(to)
    else if to >= sz then Some(sz)
    else if to == 0 then None else Some(to)
  }

  /**
   Asked for less than 2^31 bytes sbrk gives them all, if it can and they end below KERNBASE, and
   refuses otherwise. Asked for more it never grows the process: it leaves the size alone where the
   sum stays below 2^32, and beyond shrinks the process to what is left of the sum, unless that is 0.
   */
  lemma SbrkExactly(sz: nat, nu: nat, enough: bool)
    requires 0 < sz < KERNBASE && 0 < nu <= 0x2000_0000
    ensures var g, to := Growproc(sz, SbrkArg(nu), enough), sz + nu * HEADER;
            && (nu * HEADER < KERNBASE ==> g == if enough && to < KERNBASE then Some(to) else None)
            && (nu * HEADER >= KERNBASE ==>
                  g == if to < Blocks.TWO32 then Some(sz) else if to == Blocks.TWO32 then None else Some(to - Blocks.TWO32))
            && (SbrkArg(nu) > 0 <==> nu * HEADER < KERNBASE)
            && (g.Some? && g.value > sz ==> nu * HEADER < KERNBASE)
  {
  }

  /** malloc(2^31): sbrk gets -2147483640, and succeeds without giving any memory. */
  lemma SbrkExample(sz: nat, enough: bool)
    requires 0 < sz <= 0x7000_0000
    ensures NUnits(0x8000_0000) == 0x1000_0001 && SbrkArg(0x1000_0001) == -0x7FFF_FFF8
    ensures Growproc(sz, SbrkArg(NUnits(0x8000_0000)), enough) == Some(sz)
  {
  }

  function Next(i: nat, n: nat): nat {
    if i + 1 < n then i + 1 else 0
  }

  ghost predicate RingAt(fl: seq<Block>, ptr: map<nat, nat>, size: map<nat, nat>, i: nat)
    requires i < |fl|
  {
    && fl[i].a in ptr && fl[i].a in size
    && ptr[fl[i].a] == fl[Next(i, |fl|)].a && size[fl[i].a] == fl[i].n
  }

  /** ptr links the blocks of fl into one cycle, size holds their sizes. */
  ghost predicate Ring(fl: seq<Block>, ptr: map<nat, nat>, size: map<nat, nat>) {
    forall i: nat :: i < |fl| ==> RingAt(fl, ptr, size, i)
  }

  lemma SpliceAt(fl: seq<Block>, w: nat, s: nat, m: Block, i: nat)
    requires w <= s <= |fl| && i < |Splice(fl, w, s, m)|
    ensures |Splice(fl, w, s, m)| == |fl| - s + w + 1
    ensures Splice(fl, w, s, m)[i] == if i < w then fl[i] else if i == w then m else fl[i - w - 1 + s]
  {
  }

  lemma Before(fl: seq<Block>, i: nat, j: nat)
    requires Sorted(fl) && i < j < |fl|
    ensures fl[i].a <= fl[i].End() < fl[j].a
  {
  }

  /** What splicing block m into the list at w .. s-1 needs of the new links. */
  ghost predicate Relinked(fl: seq<Block>, w: nat, s: nat, m: Block,
                           ptr: map<nat, nat>, size: map<nat, nat>, ptr': map<nat, nat>, size': map<nat, nat>)
    requires 0 < w <= s <= |fl|
  {
    && (forall i :: 0 <= i < |fl| && i != w - 1 && fl[i].a != m.a ==> fl[i].a in ptr && fl[i].a in ptr' && ptr'[fl[i].a] == ptr[fl[i].a])
    && (forall i :: 0 <= i < |fl| && fl[i].a != m.a ==> fl[i].a in size && fl[i].a in size' && size'[fl[i].a] == size[fl[i].a])
    && m.a in ptr' && m.a in size' && size'[m.a] == m.n
    && fl[w - 1].a in ptr' && ptr'[fl[w - 1].a] == m.a
    && ptr'[m.a] == if s < |fl| then fl[s].a else fl[0].a
  }

  lemma RingSplice(fl: seq<Block>, base: nat, w: nat, s: nat, m: Block,
                   ptr: map<nat, nat>, size: map<nat, nat>, ptr': map<nat, nat>, size': map<nat, nat>)
    requires Ordered(fl, base) && Ring(fl, ptr, size) && 0 < w <= s <= |fl|
    requires fl[w - 1].a < m.a && (s < |fl| ==> m.a < fl[s].a)
    requires Relinked(fl, w, s, m, ptr, size, ptr', size')
    ensures Ring(Splice(fl, w, s, m), ptr', size')
  {
    hide RingAt, Splice, Sorted;
    forall i: nat | i < |Splice(fl, w, s, m)|
      ensures RingAt(Splice(fl, w, s, m), ptr', size', i)
    {
      RingSpliceAt(fl, base, w, s, m, ptr, size, ptr', size', i);
    }
  }

  lemma RingSpliceAt(fl: seq<Block>, base: nat, w: nat, s: nat, m: Block,
                     ptr: map<nat, nat>, size: map<nat, nat>, ptr': map<nat, nat>, size': map<nat, nat>, i: nat)
    requires Ordered(fl, base) && Ring(fl, ptr, size) && 0 < w <= s <= |fl| && i < |Splice(fl, w, s, m)|
    requires fl[w - 1].a < m.a && (s < |fl| ==> m.a < fl[s].a)
    requires Relinked(fl, w, s, m, ptr, size, ptr', size')
    ensures RingAt(Splice(fl, w, s, m), ptr', size', i)
  {
    hide Splice, Sorted;
    var n := |Splice(fl, w, s, m)|;
    SpliceAt(fl, w, s, m, i);
    SpliceAt(fl, w, s, m, Next(i, n));
    if i < w {
      assert RingAt(fl, ptr, size, i);
      if i < w - 1 {
        Before(fl, i, w - 1);
      }
    } else if i > w {
      var j := i - w - 1 + s;
      assert RingAt(fl, ptr, size, j);
      Before(fl, w - 1, j);
      if s < j {
        Before(fl, s, j);
      }
    }
  }

  lemma RingRemove(fl: seq<Block>, base: nat, k: nat, ptr: map<nat, nat>, size: map<nat, nat>, ptr': map<nat, nat>)
    requires Ordered(fl, base) && Ring(fl, ptr, size) && 0 < k < |fl|
    requires fl[k].a in ptr && ptr' == ptr[fl[k - 1].a := ptr[fl[k].a]]
    ensures Ring(Without(fl, k), ptr', size)
  {
    hide Sorted, Without;
    WithoutSize(fl, k);
    forall i: nat | i < |Without(fl, k)|
      ensures RingAt(Without(fl, k), ptr', size, i)
    {
      RingRemoveAt(fl, base, k, ptr, size, ptr', i);
    }
  }

  lemma WithoutSize(bs: seq<Block>, k: nat)
    requires k < |bs|
    ensures |Without(bs, k)| == |bs| - 1
  {
  }

  lemma WithoutAt(bs: seq<Block>, k: nat, i: nat)
    requires k < |bs| && i < |bs| - 1
    ensures |Without(bs, k)| == |bs| - 1 && Without(bs, k)[i] == if i < k then bs[i] else bs[i + 1]
  {
  }

  lemma RingRemoveAt(fl: seq<Block>, base: nat, k: nat, ptr: map<nat, nat>, size: map<nat, nat>, ptr': map<nat, nat>, i: nat)
    requires Ordered(fl, base) && Ring(fl, ptr, size) && 0 < k < |fl| && i < |Without(fl, k)|
    requires fl[k].a in ptr && ptr' == ptr[fl[k - 1].a := ptr[fl[k].a]]
    ensures RingAt(Without(fl, k), ptr', size, i)
  {
    hide Sorted, Without;
    WithoutSize(fl, k);
    WithoutAt(fl, k, i);
    WithoutAt(fl, k, Next(i, |fl| - 1));
    assert RingAt(fl, ptr, size, k);
    if i < k {
      assert RingAt(fl, ptr, size, i);
      if i < k - 1 {
        Before(fl, i, k - 1);
      }
    } else {
      assert RingAt(fl, ptr, size, i + 1);
      Before(fl, k - 1, i + 1);
    }
  }

  lemma RingShrink(fl: seq<Block>, base: nat, k: nat, n: nat, ptr: map<nat, nat>, size: map<nat, nat>)
    requires Ordered(fl, base) && Ring(fl, ptr, size) && 0 < k < |fl| && 0 < n < fl[k].n
    ensures var b := Taken(fl, k, n);
            Ring(fl[k := Block(fl[k].a, fl[k].n - n)], ptr, size[fl[k].a := fl[k].n - n][b.a := n])
  {
    hide Sorted;
    var b := Taken(fl, k, n);
    var r, size' := fl[k := Block(fl[k].a, fl[k].n - n)], size[fl[k].a := fl[k].n - n][b.a := n];
    forall i: nat | i < |r|
      ensures RingAt(r, ptr, size', i)
    {
      assert RingAt(fl, ptr, size, i);
      if i < k {
        Before(fl, i, k);
      } else if i > k {
        Before(fl, k, i);
      }
    }
  }

  // ------------------------------------------------------------ the heap

  /** Free and live blocks are apart, and together are exactly the memory obtained from sbrk. */
  ghost predicate Partition(fl: seq<Block>, live: seq<Block>, regions: seq<Block>) {
    && (forall j :: 0 <= j < |live| ==> live[j].n > 0)
    && (forall i, j :: 0 <= i < j < |live| ==> !Overlap(live[i], live[j]))
    && (forall u: nat :: !(Covers(fl, u) && Covers(live, u)))
    && (forall u: nat :: Covers(regions, u) <==> Covers(fl, u) || Covers(live, u))
    && Units(fl) + Units(live) == Units(regions)
  }

  /** All memory lies above base and below the break. */
  ghost predicate Within(regions: seq<Block>, base: nat, top: nat) {
    base < top && forall i :: 0 <= i < |regions| ==> base < regions[i].a && regions[i].End() <= top
  }

  lemma WithoutUnits(bs: seq<Block>, j: nat)
    requires j < |bs|
    ensures Units(Without(bs, j)) + bs[j].n == Units(bs)
  {
    hide Units;
    assert bs == bs[..j] + [bs[j]] + bs[j + 1..];
    UnitsConcat(bs[..j], bs[j + 1..]);
    UnitsConcat(bs[..j] + [bs[j]], bs[j + 1..]);
    UnitsConcat(bs[..j], [bs[j]]);
    UnitsOne(bs[j]);
  }

  lemma WithoutCovers(bs: seq<Block>, j: nat, u: nat)
    requires j < |bs|
    ensures Covers(bs, u) <==> Covers(Without(bs, j), u) || Inside(bs[j], u)
  {
    hide Without;
    WithoutSize(bs, j);
    if Covers(bs, u) {
      var i :| 0 <= i < |bs| && Inside(bs[i], u);
      if i < j {
        WithoutAt(bs, j, i);
      } else if i > j {
        WithoutAt(bs, j, i - 1);
      }
    }
    if Covers(Without(bs, j), u) {
      var i :| 0 <= i < |bs| - 1 && Inside(Without(bs, j)[i], u);
      WithoutAt(bs, j, i);
    }
  }

  /** A live block lies above base and overlaps no free block, so that it has a place in the list. */
  lemma LivePlace(fl: seq<Block>, live: seq<Block>, regions: seq<Block>, base: nat, top: nat, j: nat) returns (t: nat)
    requires Ordered(fl, base) && Partition(fl, live, regions) && Within(regions, base, top) && j < |live|
    ensures Fits(fl, t, live[j]) && live[j].a > base
  {
    var b := live[j];
    LiveAbove(fl, live, regions, base, top, j);
    forall i | 0 <= i < |fl|
      ensures !Overlap(fl[i], b)
    {
      if i > 0 {
        Disjoint(fl, live, i, j);
      }
    }
    t := PlaceExists(fl, base, b);
  }

  lemma Disjoint(bs: seq<Block>, cs: seq<Block>, i: nat, j: nat)
    requires i < |bs| && j < |cs| && bs[i].n > 0 && cs[j].n > 0
    requires forall u: nat :: !(Covers(bs, u) && Covers(cs, u))
    ensures !Overlap(bs[i], cs[j])
  {
    var u := if bs[i].a < cs[j].a then cs[j].a else bs[i].a;
    assert Inside(bs[i], u) ==> Covers(bs, u);
    assert Inside(cs[j], u) ==> Covers(cs, u);
  }

  lemma LiveAbove(fl: seq<Block>, live: seq<Block>, regions: seq<Block>, base: nat, top: nat, j: nat)
    requires Partition(fl, live, regions) && Within(regions, base, top) && j < |live|
    ensures base < live[j].a && live[j].End() <= top
  {
    var b := live[j];
    assert Inside(b, b.a) && Inside(b, b.End() - 1);
    assert Covers(live, b.a) && Covers(live, b.End() - 1);
    assert Covers(regions, b.a) && Covers(regions, b.End() - 1);
  }

  /** free moves one block's units from live to free. */
  lemma FreePartition(fl: seq<Block>, base: nat, live: seq<Block>, regions: seq<Block>, t: nat, j: nat)
    requires Ordered(fl, base) && Partition(fl, live, regions) && j < |live| && Fits(fl, t, live[j])
    ensures Partition(Insert(fl, t, live[j]), Without(live, j), regions)
  {
    hide Units, Insert, Fits;
    var b := live[j];
    assert t < |fl| by {
      FitsIndex(fl, t, b);
    }
    var fl', live' := Insert(fl, t, b), Without(live, j);
    InsertUnits(fl, t, b);
    WithoutUnits(live, j);
    forall u: nat
      ensures !(Covers(fl', u) && Covers(live', u))
      ensures Covers(regions, u) <==> Covers(fl', u) || Covers(live', u)
    {
      InsertCovers(fl, base, t, b, u);
      WithoutCovers(live, j, u);
      NotCoveredTwice(live, j, u);
    }
    WithoutApart(live, j);
  }

  lemma FitsIndex(fl: seq<Block>, t: nat, b: Block)
    requires Fits(fl, t, b)
    ensures t < |fl|
  {
  }

  lemma NotCoveredTwice(live: seq<Block>, j: nat, u: nat)
    requires j < |live| && forall i, k :: 0 <= i < k < |live| ==> !Overlap(live[i], live[k])
    ensures !(Covers(Without(live, j), u) && Inside(live[j], u))
  {
    if Covers(Without(live, j), u) {
      var i :| 0 <= i < |Without(live, j)| && Inside(Without(live, j)[i], u);
      WithoutAt(live, j, i);
    }
  }

  lemma WithoutApart(live: seq<Block>, j: nat)
    requires j < |live| && (forall i :: 0 <= i < |live| ==> live[i].n > 0)
    requires forall i, k :: 0 <= i < k < |live| ==> !Overlap(live[i], live[k])
    ensures forall i :: 0 <= i < |Without(live, j)| ==> Without(live, j)[i].n > 0
    ensures forall i, k :: 0 <= i < k < |Without(live, j)| ==> !Overlap(Without(live, j)[i], Without(live, j)[k])
  {
  }

  /** malloc moves units from free to a new live block. */
  lemma TakePartition(fl: seq<Block>, base: nat, live: seq<Block>, regions: seq<Block>, k: nat, n: nat)
    requires Ordered(fl, base) && Partition(fl, live, regions) && 0 < k < |fl| && 0 < n <= fl[k].n
    ensures Partition(Take(fl, k, n), live + [Taken(fl, k, n)], regions)
  {
    hide Units, Take;
    var b := Taken(fl, k, n);
    TakeUnits(fl, k, n);
    UnitsConcat(live, [b]);
    UnitsOne(b);
    forall u: nat
      ensures !(Covers(Take(fl, k, n), u) && Covers(live + [b], u))
      ensures Covers(regions, u) <==> Covers(Take(fl, k, n), u) || Covers(live + [b], u)
    {
      TakeCovers(fl, base, k, n, u);
      CoversSnoc(live, b, u);
    }
    forall i | 0 <= i < |live|
      ensures !Overlap(live[i], b)
    {
      Disjoint(fl, live, k, i);
    }
  }

  lemma CoversSnoc(bs: seq<Block>, b: Block, u: nat)
    ensures Covers(bs + [b], u) <==> Covers(bs, u) || Inside(b, u)
  {
    assert (bs + [b])[|bs|] == b;
    assert forall i :: 0 <= i < |bs| ==> (bs + [b])[i] == bs[i];
  }

  /** morecore: a new region, at first one live block. */
  lemma GrowPartition(fl: seq<Block>, live: seq<Block>, regions: seq<Block>, base: nat, top: nat, r: Block)
    requires Partition(fl, live, regions) && Within(regions, base, top) && r.a >= top && r.n > 0
    ensures Partition(fl, live + [r], regions + [r]) && Within(regions + [r], base, r.End())
  {
    hide Units;
    UnitsConcat(live, [r]);
    UnitsConcat(regions, [r]);
    UnitsOne(r);
    forall u: nat
      ensures !(Covers(fl, u) && Covers(live + [r], u))
      ensures Covers(regions + [r], u) <==> Covers(fl, u) || Covers(live + [r], u)
    {
      CoversSnoc(live, r, u);
      CoversSnoc(regions, r, u);
      assert Covers(regions, u) ==> u < top;
    }
    forall j | 0 <= j < |live|
      ensures !Overlap(live[j], r)
    {
      LiveAbove(fl, live, regions, base, top, j);
    }
  }

  // -------------------------------------------------------------- the code

  class Allocator {
    const base: nat
    var ptr: map<nat, nat>
    var size: map<nat, nat>
    var freep: nat
    ghost var fl: seq<Block>
    ghost var live: seq<Block>
    ghost var regions: seq<Block>
    ghost var top: nat

    ghost predicate Valid()
      reads this
    {
      && 0 < base && Within(regions, base, top) && top * HEADER <= KERNBASE
      && (freep == 0 ==> fl == [] && live == [] && regions == [])
      && (freep != 0 ==> Ordered(fl, base) && Ring(fl, ptr, size) && exists k: nat :: k < |fl| && fl[k].a == freep)
      && Partition(fl, live, regions)
      && forall j :: 0 <= j < |live| ==> live[j].a in size && size[live[j].a] == live[j].n
    }

    /** Program start: static variables are zero. */
    constructor (base: nat, top: nat)
      requires 0 < base < top && top * HEADER <= KERNBASE
      ensures Valid() && live == [] && regions == [] && this.base == base && this.top == top
    {
      this.base := base;
      this.top := top;
      ptr, size, freep := map[], map[], 0;
      fl, live, regions := [], [], [];
    }

    /** free's search: the element of the ring after which bp belongs. */
    method FindPlace(bp: nat, ghost t: nat, ghost b: Block) returns (p: nat)
      requires Ordered(fl, base) && Ring(fl, ptr, size) && b.a == bp && Fits(fl, t, b) && bp > base
      requires exists k: nat :: k < |fl| && fl[k].a == freep
      ensures t < |fl| && p == fl[t].a
    {
      p := freep;
      ghost var k: nat :| k < |fl| && fl[k].a == p;
      while !(bp > p && bp < ptr[p])
        invariant k < |fl| && p == fl[k].a && RingAt(fl, ptr, size, k)
        decreases if k <= t then t - k else t - k + |fl|
      {
        ExitAtPlace(fl, base, t, b, k);
        if p >= ptr[p] && (bp > p || bp < ptr[p]) {
          break;
        }
        p := ptr[p];
        k := Next(k, |fl|);
      }
      ExitAtPlace(fl, base, t, b, k);
    }

    /** free, for the live block j whose data starts at ap. */
    method Free(ap: nat, ghost j: nat) returns (ghost t: nat)
      requires Valid() && j < |live| && ap == live[j].a + 1
      modifies this
      ensures Valid() && regions == old(regions) && top == old(top) && freep != 0
      ensures live == Without(old(live), j)
      ensures Fits(old(fl), t, old(live[j])) && fl == Insert(old(fl), t, old(live[j])) && freep == fl[t].a
    {
      hide Ring, Ordered, Partition, Within, Insert, Without, Fits;
      ghost var b, f := live[j], fl;
      assert freep != 0;
      t := LivePlace(fl, live, regions, base, top, j);
      FitsIndex(fl, t, b);
      var bp := ap - 1;
      var p := FindPlace(bp, t, b);
      InsertRing(fl, base, t, b, ptr, size);
      FreePartition(fl, base, live, regions, t, j);
      InsertOrdered(fl, base, t, b);
      OthersKept(fl, base, live, regions, top, t, j, ptr, size);
      ghost var links := FreeLinks(ptr, size, p, bp);
      if bp + size[bp] == ptr[p] {
        size := size[bp := size[bp] + size[ptr[p]]];
        ptr := ptr[bp := ptr[ptr[p]]];
      } else {
        ptr := ptr[bp := ptr[p]];
      }
      if p + size[p] == bp {
        size := size[p := size[p] + size[bp]];
        ptr := ptr[p := ptr[bp]];
      } else {
        ptr := ptr[p := bp];
      }
      assert ptr == links.0 && size == links.1;
      freep := p;
      fl := Insert(fl, t, b);
      live := Without(live, j);
    }

    /**
     morecore: a region from sbrk, put on the free list; 0 if sbrk refuses. If the request is
     2^31 bytes or more and sbrk does not refuse, there is no memory behind the region, and the
     model stops there.
     */
    method Morecore(nu: nat, sbrk: Option<nat>) returns (r: Answer, ghost t: nat)
      requires Valid() && freep != 0 && 0 < nu <= 0x2000_0000 && CanAnswer(sbrk, nu)
      modifies this
      ensures Valid() && live == old(live) && freep != 0
      ensures r.Refused? <==> sbrk.None?
      ensures r.Unbacked? <==> sbrk.Some? && nu * HEADER >= KERNBASE
      ensures !r.Got? ==> fl == old(fl) && regions == old(regions) && top == old(top) && freep == old(freep)
      ensures r.Got? ==>
                && r.ap == freep && sbrk.Some?
                && var b := Core(sbrk.value, nu);
                && regions == old(regions) + [b] && top == b.End()
                && Fits(old(fl), t, b) && fl == Insert(old(fl), t, b) && freep == fl[t].a
    {
      hide Ring, Ordered, Partition, Within, Insert, Without, Fits;
      t := 0;
      var n := if nu < MINCORE then MINCORE else nu;
      SbrkExactly(1, n, true);
      if sbrk.None? {
        return Refused, t;
      }
      if SbrkArg(n) <= 0 {
        return Unbacked, t;
      }
      var hp := sbrk.value;
      ghost var b, l := Block(hp, n), live;
      GrowPartition(fl, live, regions, base, top, b);
      NewHeader(fl, base, live, regions, top, ptr, size, b);
      size := size[hp := n];
      live, regions, top := live + [b], regions + [b], b.End();
      t := Free(hp + 1, |l|);
      DropLast(l, b);
      r := Got(freep);
    }

    /** An answer of sbrk: memory above all that it has given before, and below KERNBASE. */
    ghost predicate CanAnswer(sbrk: Option<nat>, nu: nat)
      reads this
    {
      sbrk.Some? && nu * HEADER < KERNBASE ==> sbrk.value >= top && (sbrk.value + CoreUnits(nu)) * HEADER < KERNBASE
    }

    /** No free block is as large as the address space. */
    lemma FreeBound(i: nat)
      requires Valid() && freep != 0 && i < |fl|
      ensures fl[i].n * HEADER < KERNBASE
    {
      if fl[i].n > 0 {
        var u := fl[i].a + fl[i].n - 1;
        assert Inside(fl[i], u);
        assert Covers(fl, u) && Covers(regions, u);
        assert u < top;
      }
    }

    /** What the ring says about element i. */
    lemma Element(i: nat)
      requires Valid() && freep != 0 && i < |fl|
      ensures fl[i].a in ptr && fl[i].a in size && ptr[fl[i].a] == fl[Next(i, |fl|)].a && size[fl[i].a] == fl[i].n
      ensures fl[0] == Block(base, 0) && forall j: nat :: j < |fl| && fl[j].a == fl[i].a ==> j == i
    {
      RingIndex(fl, ptr, size, i);
      forall j: nat | j < |fl| && fl[j].a == fl[i].a
        ensures j == i
      {
        SameAddr(fl, base, i, j);
      }
    }

    lemma Start() returns (k: nat)
      requires Valid() && freep != 0
      ensures k < |fl| && fl[k].a == freep
    {
      k :| k < |fl| && fl[k].a == freep;
    }

    /** malloc's search has reached element ip, coming round from freep; `grown` once morecore has succeeded. */
    ghost predicate Searching(n: nat, prevp: nat, p: nat, ip: nat, kf: nat, grown: bool, g: nat)
      reads this
    {
      && Valid() && freep != 0 && kf < |fl| && freep == fl[kf].a
      && ip < |fl| && p == fl[ip].a && prevp == fl[Prior(ip, |fl|)].a
      && (!grown ==> forall i: nat :: i < |fl| && Dist(Next(kf, |fl|), i, |fl|) < Dist(Next(kf, |fl|), ip, |fl|) ==> fl[i].n < n)
      && (grown ==> g < |fl| && fl[g].n >= n && Dist(ip, g, |fl|) <= Dist(ip, kf, |fl|))
    }

    /**
     malloc, given what sbrk would answer. The block has memory behind it exactly if it is less
     than 2^31 bytes, header and all.
     */
    method Malloc(nbytes: nat, sbrk: Option<nat>) returns (r: Answer)
      requires Valid() && nbytes < Blocks.TWO32 && CanAnswer(sbrk, NUnits(nbytes))
      modifies this
      ensures Valid()
      ensures r.Unbacked? <==> sbrk.Some? && NUnits(nbytes) * HEADER >= KERNBASE
      ensures r.Got? ==> r.ap > 0 && live == old(live) + [Block(r.ap - 1, NUnits(nbytes))]
      ensures !r.Got? ==> live == old(live) && forall i :: 0 <= i < |fl| ==> fl[i].n < NUnits(nbytes)
      ensures r.Refused? ==> sbrk.None?
      ensures regions == old(regions) || (r.Got? && sbrk.Some? && regions == old(regions) + [Core(sbrk.value, NUnits(nbytes))])
    {
      hide Valid, Dist, Core, Take;
      var nunits := (nbytes + HEADER - 1) % Blocks.TWO32 / HEADER + 1;
      assert nunits == NUnits(nbytes) && nunits <= 0x2000_0000;
      if freep == 0 {
        Init();
      }
      var prevp := freep;
      ghost var kf := Start();
      Element(kf);
      var p := ptr[prevp];
      ghost var ip: nat, grown, g: nat := Next(kf, |fl|), false, 0;
      DistFacts(kf, |fl|);
      while true
        invariant Searching(nunits, prevp, p, ip, kf, grown, g) && live == old(live)
        invariant !grown ==> regions == old(regions) && top == old(top)
        invariant grown ==> sbrk.Some? && regions == old(regions) + [Core(sbrk.value, nunits)]
        decreases !grown, Dist(ip, kf, |fl|)
      {
        Element(ip);
        if size[p] >= nunits {
          FreeBound(ip);
          p := Carve(prevp, p, nunits, ip);
          return Got(p + 1);
        }
        if p == freep {
          DistFacts(kf, |fl|);
          if grown {
            DistUnique(ip, g, |fl|);
          }
          r, prevp, p, ip, kf, g := Grow(nunits, sbrk, kf);
          if !r.Got? {
            return;
          }
          grown := true;
        } else {
          StepFacts(fl, ip, kf, g, nunits, grown);
          prevp := p;
          p := ptr[p];
          ip := Next(ip, |fl|);
        }
      }
    }

    /** malloc's search has come round without success: get more memory and start again behind freep. */
    method Grow(n: nat, sbrk: Option<nat>, ghost kf: nat) returns (r: Answer, prevp: nat, p: nat, ghost ip: nat, ghost t: nat, ghost g: nat)
      requires kf < |fl| && Searching(n, fl[Prior(kf, |fl|)].a, freep, kf, kf, false, 0) && fl[kf].n < n <= 0x2000_0000
      requires CanAnswer(sbrk, n)
      modifies this
      ensures Valid() && live == old(live) && (r.Unbacked? <==> sbrk.Some? && n * HEADER >= KERNBASE)
      ensures r.Refused? <==> sbrk.None?
      ensures !r.Got? ==> regions == old(regions) && forall i :: 0 <= i < |fl| ==> fl[i].n < n
      ensures r.Got? ==> sbrk.Some? && regions == old(regions) + [Core(sbrk.value, n)] && Searching(n, prevp, p, ip, t, true, g)
    {
      hide Ring, Ordered, Partition, Within, Insert, Without, Fits, Dist, Core;
      ip, g, p, prevp := 0, 0, 0, 0;
      ghost var f := fl;
      AllVisited(fl, kf, n);
      r, t := Morecore(n, sbrk);
      if r.Got? {
        prevp := r.ap;
        GrownBlock(f, t, Core(sbrk.value, n), n);
        RingIndex(fl, ptr, size, t);
        g := if t + 1 < |fl| && fl[t].n < n then t + 1 else t;
        p := ptr[prevp];
        ip := Next(t, |fl|);
        DistFacts(t, |fl|);
        AfterGrowth(t, g, |fl|);
      }
    }

    /** The first call of malloc: base becomes the whole free list. */
    method Init()
      requires Valid() && freep == 0
      modifies this
      ensures Valid() && freep == base != 0 && live == old(live) && regions == old(regions) && top == old(top)
    {
      ptr := ptr[base := base];
      size := size[base := 0];
      freep := base;
      fl := [Block(base, 0)];
      UnitsOne(Block(base, 0));
      assert fl[0].a == freep;
    }

    /** malloc's good case: take n units off the tail of element k. */
    method Carve(prevp: nat, p: nat, n: nat, ghost k: nat) returns (q: nat)
      requires Valid() && freep != 0 && 0 < k < |fl| && p == fl[k].a && prevp == fl[k - 1].a && 0 < n <= fl[k].n
      modifies this
      ensures Valid() && q == Taken(old(fl), k, n).a && live == old(live) + [Taken(old(fl), k, n)]
      ensures fl == Take(old(fl), k, n) && regions == old(regions) && top == old(top) && freep != 0
    {
      hide Ring, Ordered, Partition, Within, Without;
      RingIndex(fl, ptr, size, k);
      RingIndex(fl, ptr, size, k - 1);
      TakeOrdered(fl, base, k, n);
      TakePartition(fl, base, live, regions, k, n);
      CarveKeeps(fl, base, live, regions, top, k, n, ptr, size);
      q := p;
      if size[p] == n {
        ptr := ptr[prevp := ptr[p]];
      } else {
        size := size[p := size[p] - n];
        q := p + size[p];
        size := size[q := n];
      }
      freep := prevp;
      live := live + [Taken(fl, k, n)];
      fl := Take(fl, k, n);
    }
  }

  lemma CarveKeeps(fl: seq<Block>, base: nat, live: seq<Block>, regions: seq<Block>, top: nat, k: nat, n: nat,
                   ptr: map<nat, nat>, size: map<nat, nat>)
    requires Ordered(fl, base) && Ring(fl, ptr, size) && Partition(fl, live, regions) && Within(regions, base, top)
    requires 0 < k < |fl| && 0 < n <= fl[k].n && base > 0
    requires fl[k].a in ptr && fl[k].a in size
    requires forall i :: 0 <= i < |live| ==> live[i].a in size && size[live[i].a] == live[i].n
    ensures var b := Taken(fl, k, n);
            var ptr' := if fl[k].n == n then ptr[fl[k - 1].a := ptr[fl[k].a]] else ptr;
            var size' := if fl[k].n == n then size else size[fl[k].a := fl[k].n - n][b.a := n];
            && Ring(Take(fl, k, n), ptr', size')
            && (forall i :: 0 <= i < |live + [b]| ==> (live + [b])[i].a in size' && size'[(live + [b])[i].a] == (live + [b])[i].n)
    ensures k - 1 < |Take(fl, k, n)| && Take(fl, k, n)[k - 1].a == fl[k - 1].a != 0
  {
    var b := Taken(fl, k, n);
    if fl[k].n == n {
      RingRemove(fl, base, k, ptr, size, ptr[fl[k - 1].a := ptr[fl[k].a]]);
      WithoutAt(fl, k, k - 1);
    } else {
      RingShrink(fl, base, k, n, ptr, size);
    }
    assert RingAt(fl, ptr, size, k);
    forall i | 0 <= i < |live|
      ensures live[i].a != fl[k].a && live[i].a != b.a
    {
      Disjoint(fl, live, k, i);
    }
    if k - 1 > 0 {
      Before(fl, 0, k - 1);
    }
  }

  /** Header-sized units for a request, with 32-bit wrap-around. */
  function NUnits(nbytes: nat): (n: nat)
    ensures n > 0
  {
    (nbytes + HEADER - 1) % Blocks.TWO32 / HEADER + 1
  }

  /** The data area of a block is large enough exactly when the rounding up does not wrap. */
  lemma RoomForRequest(nbytes: nat)
    requires nbytes < Blocks.TWO32
    ensures (NUnits(nbytes) - 1) * HEADER >= nbytes <==> nbytes + HEADER - 1 < Blocks.TWO32
  {
  }

  /** A request gets a block that is large enough and has memory behind it exactly up to 2^31 - 16 bytes. */
  lemma UsableExactly(nbytes: nat)
    requires nbytes < Blocks.TWO32
    ensures (NUnits(nbytes) - 1) * HEADER >= nbytes && NUnits(nbytes) * HEADER < KERNBASE <==> nbytes <= KERNBASE - 16
  {
    RoomForRequest(nbytes);
  }

  /** The region that morecore asks sbrk for. */
  function Core(a: nat, nu: nat): (b: Block)
    ensures b.n >= nu
  {
    Block(a, CoreUnits(nu))
  }

  function Prior(i: nat, n: nat): nat {
    if i > 0 then i - 1 else if n > 0 then n - 1 else 0
  }

  /** Steps from i round to j in a ring of n. */
  function Dist(i: nat, j: nat, n: nat): int {
    if i <= j then j - i else j - i + n
  }

  lemma RingIndex(fl: seq<Block>, ptr: map<nat, nat>, size: map<nat, nat>, i: nat)
    requires Ring(fl, ptr, size) && i < |fl|
    ensures fl[i].a in ptr && fl[i].a in size && ptr[fl[i].a] == fl[Next(i, |fl|)].a && size[fl[i].a] == fl[i].n
  {
    assert RingAt(fl, ptr, size, i);
  }

  lemma DistFacts(k: nat, n: nat)
    requires k < n
    ensures Next(k, n) < n && Prior(Next(k, n), n) == k && Dist(Next(k, n), Next(k, n), n) == 0 && Dist(k, k, n) == 0
    ensures forall i: nat :: i < n ==> Dist(Next(k, n), i, n) >= 0 && Dist(i, k, n) >= 0
  {
  }

  lemma DistUnique(i: nat, j: nat, n: nat)
    requires i < n && j < n && Dist(i, j, n) <= 0
    ensures i == j
  {
  }

  lemma SameAddr(fl: seq<Block>, base: nat, i: nat, j: nat)
    requires Ordered(fl, base) && i < |fl| && j < |fl| && fl[i].a == fl[j].a
    ensures i == j
  {
    if i < j {
      Before(fl, i, j);
    } else if j < i {
      Before(fl, j, i);
    }
  }

  lemma AllVisited(fl: seq<Block>, kf: nat, n: nat)
    requires kf < |fl| && fl[kf].n < n
    requires forall i: nat :: i < |fl| && Dist(Next(kf, |fl|), i, |fl|) < Dist(Next(kf, |fl|), kf, |fl|) ==> fl[i].n < n
    ensures forall i :: 0 <= i < |fl| ==> fl[i].n < n
  {
    forall i: nat | i < |fl|
      ensures fl[i].n < n
    {
      assert i != kf ==> Dist(Next(kf, |fl|), i, |fl|) < Dist(Next(kf, |fl|), kf, |fl|);
    }
  }

  lemma GrownBlock(f: seq<Block>, t: nat, b: Block, n: nat)
    requires Fits(f, t, b) && b.n >= n
    ensures var fl := Insert(f, t, b);
            t < |fl| && (fl[t].n >= n || (t + 1 < |fl| && fl[t + 1].n >= n))
  {
    var w := if TouchesPrev(f, t, b) then t else t + 1;
    var s := if TouchesNext(f, t, b) then t + 2 else t + 1;
    SpliceSize(f, w, s, Joined(f, t, b));
    SpliceAt(f, w, s, Joined(f, t, b), w);
  }

  lemma AfterGrowth(t: nat, g: nat, n: nat)
    requires t < n && g < n && (g == t || g == t + 1)
    ensures Dist(Next(t, n), g, n) <= Dist(Next(t, n), t, n)
  {
  }

  lemma StepFacts(fl: seq<Block>, ip: nat, kf: nat, g: nat, n: nat, grown: bool)
    requires ip < |fl| && kf < |fl| && ip != kf && fl[ip].n < n
    requires !grown ==> forall i: nat :: i < |fl| && Dist(Next(kf, |fl|), i, |fl|) < Dist(Next(kf, |fl|), ip, |fl|) ==> fl[i].n < n
    requires grown ==> g < |fl| && fl[g].n >= n && Dist(ip, g, |fl|) <= Dist(ip, kf, |fl|)
    ensures var iq := Next(ip, |fl|);
            && iq < |fl| && Prior(iq, |fl|) == ip && 0 <= Dist(iq, kf, |fl|) < Dist(ip, kf, |fl|)
            && (!grown ==> forall i: nat :: i < |fl| && Dist(Next(kf, |fl|), i, |fl|) < Dist(Next(kf, |fl|), iq, |fl|) ==> fl[i].n < n)
            && (grown ==> Dist(iq, g, |fl|) <= Dist(iq, kf, |fl|))
  {
    var iq := Next(ip, |fl|);
    if !grown {
      forall i: nat | i < |fl| && Dist(Next(kf, |fl|), i, |fl|) < Dist(Next(kf, |fl|), iq, |fl|)
        ensures fl[i].n < n
      {
        assert i == ip || Dist(Next(kf, |fl|), i, |fl|) < Dist(Next(kf, |fl|), ip, |fl|);
      }
    }
  }

  lemma DropLast(live: seq<Block>, b: Block)
    ensures Without(live + [b], |live|) == live
  {
  }

  /** A header above all memory in use disturbs nothing. */
  lemma NewHeader(fl: seq<Block>, base: nat, live: seq<Block>, regions: seq<Block>, top: nat,
                  ptr: map<nat, nat>, size: map<nat, nat>, b: Block)
    requires Ordered(fl, base) && Ring(fl, ptr, size) && Partition(fl, live, regions) && Within(regions, base, top)
    requires b.a >= top
    requires forall i :: 0 <= i < |live| ==> live[i].a in size && size[live[i].a] == live[i].n
    ensures Ring(fl, ptr, size[b.a := b.n])
    ensures var l, s := live + [b], size[b.a := b.n];
            forall i :: 0 <= i < |l| ==> l[i].a in s && s[l[i].a] == l[i].n
  {
    var size' := size[b.a := b.n];
    forall i: nat | i < |fl|
      ensures RingAt(fl, ptr, size', i)
    {
      assert RingAt(fl, ptr, size, i);
      if i > 0 {
        assert Inside(fl[i], fl[i].a);
        assert Covers(fl, fl[i].a);
        assert Covers(regions, fl[i].a);
      }
    }
    forall i | 0 <= i < |live|
      ensures live[i].a < top
    {
      LiveAbove(fl, live, regions, base, top, i);
    }
  }

  /** The pointer and size updates of free, once the place p for bp is known. */
  function FreeLinks(ptr: map<nat, nat>, size: map<nat, nat>, p: nat, bp: nat): (map<nat, nat>, map<nat, nat>)
    requires p in ptr && p in size && bp in size && p != bp
    requires bp + size[bp] == ptr[p] ==> ptr[p] in ptr && ptr[p] in size
  {
    var joinNext := bp + size[bp] == ptr[p];
    var size1 := if joinNext then size[bp := size[bp] + size[ptr[p]]] else size;
    var ptr1 := if joinNext then ptr[bp := ptr[ptr[p]]] else ptr[bp := ptr[p]];
    if p + size1[p] == bp then (ptr1[p := ptr1[bp]], size1[p := size1[p] + size1[bp]])
    else (ptr1[p := bp], size1)
  }

  lemma InsertRing(fl: seq<Block>, base: nat, t: nat, b: Block, ptr: map<nat, nat>, size: map<nat, nat>)
    requires Ordered(fl, base) && Ring(fl, ptr, size) && Fits(fl, t, b) && b.a > base
    requires b.a in size && size[b.a] == b.n
    ensures var p := fl[t].a;
            && p in ptr && p in size && p != b.a && (b.a + b.n == ptr[p] ==> ptr[p] in ptr && ptr[p] in size)
            && var links := FreeLinks(ptr, size, p, b.a);
               Ring(Insert(fl, t, b), links.0, links.1)
    ensures t < |Insert(fl, t, b)| && Insert(fl, t, b)[t].a == fl[t].a
  {
    hide Splice, Sorted;
    var w := if TouchesPrev(fl, t, b) then t else t + 1;
    var s := if TouchesNext(fl, t, b) then t + 2 else t + 1;
    var m := Joined(fl, t, b);
    var p := fl[t].a;
    assert RingAt(fl, ptr, size, t);
    LastLinksToBase(fl, base, t, b);
    if t + 1 < |fl| {
      assert RingAt(fl, ptr, size, t + 1);
      Before(fl, t, t + 1);
    }
    assert w > 0;
    var links := FreeLinks(ptr, size, p, b.a);
    RelinkedByFree(fl, base, t, b, ptr, size);
    if s < |fl| {
      Before(fl, t, s);
      if s == t + 2 {
        Before(fl, t + 1, s);
      }
    }
    if w == t {
      Before(fl, t - 1, t);
    }
    RingSplice(fl, base, w, s, m, ptr, size, links.0, links.1);
    SpliceSize(fl, w, s, m);
    SpliceAt(fl, w, s, m, t);
  }

  lemma SpliceSize(fl: seq<Block>, w: nat, s: nat, m: Block)
    requires w <= s <= |fl|
    ensures |Splice(fl, w, s, m)| == |fl| - s + w + 1
  {
  }

  /** The last element's successor is base, which no block can touch from below. */
  lemma LastLinksToBase(fl: seq<Block>, base: nat, t: nat, b: Block)
    requires Ordered(fl, base) && Fits(fl, t, b) && b.a > base
    ensures b.End() == fl[Next(t, |fl|)].a <==> TouchesNext(fl, t, b)
    ensures TouchesPrev(fl, t, b) ==> t > 0
  {
  }

  /** The search stops at the right element and nowhere else. */
  lemma ExitAtPlace(fl: seq<Block>, base: nat, t: nat, b: Block, k: nat)
    requires Ordered(fl, base) && Fits(fl, t, b) && b.a > base && k < |fl|
    ensures var p, q, bp := fl[k].a, fl[Next(k, |fl|)].a, b.a;
            ((bp > p && bp < q) || (p >= q && (bp > p || bp < q))) <==> k == t
  {
    if k < t {
      Before(fl, k, t);
      if k + 1 < t {
        Before(fl, k + 1, t);
      }
    } else if t < k {
      Before(fl, t, k);
      if t + 1 < k {
        Before(fl, t + 1, k);
      }
    }
    if k > 0 {
      Before(fl, 0, k);
    }
    if k + 1 < |fl| {
      Before(fl, k, k + 1);
    }
  }

  lemma RelinkedByFree(fl: seq<Block>, base: nat, t: nat, b: Block, ptr: map<nat, nat>, size: map<nat, nat>)
    requires Ordered(fl, base) && Ring(fl, ptr, size) && Fits(fl, t, b) && b.a > base
    requires b.a in size && size[b.a] == b.n
    requires fl[t].a in ptr && fl[t].a in size && fl[t].a != b.a
    requires b.a + b.n == ptr[fl[t].a] ==> ptr[fl[t].a] in ptr && ptr[fl[t].a] in size
    requires TouchesPrev(fl, t, b) ==> t > 0
    ensures var w := if TouchesPrev(fl, t, b) then t else t + 1;
            var s := if TouchesNext(fl, t, b) then t + 2 else t + 1;
            var links := FreeLinks(ptr, size, fl[t].a, b.a);
            Relinked(fl, w, s, Joined(fl, t, b), ptr, size, links.0, links.1)
  {
    hide Sorted;
    var w := if TouchesPrev(fl, t, b) then t else t + 1;
    var links := FreeLinks(ptr, size, fl[t].a, b.a);
    assert RingAt(fl, ptr, size, t);
    LastLinksToBase(fl, base, t, b);
    if t + 1 < |fl| {
      assert RingAt(fl, ptr, size, t + 1);
    }
    forall i | 0 <= i < |fl|
      ensures fl[i].a != b.a && (i != t ==> fl[i].a != fl[t].a) && fl[i].a in ptr && fl[i].a in size
    {
      assert RingAt(fl, ptr, size, i);
      if i < t {
        Before(fl, i, t);
      } else if t < i {
        Before(fl, t, i);
        if t + 1 < i {
          Before(fl, t + 1, i);
        }
      }
    }
    if w == t {
      assert RingAt(fl, ptr, size, t - 1);
    }
  }

  /** free changes no header of another live block. */
  lemma OthersKept(fl: seq<Block>, base: nat, live: seq<Block>, regions: seq<Block>, top: nat, t: nat, j: nat,
                   ptr: map<nat, nat>, size: map<nat, nat>)
    requires Ordered(fl, base) && Partition(fl, live, regions) && Within(regions, base, top) && j < |live| && t < |fl|
    requires forall i :: 0 <= i < |live| ==> live[i].a in size && size[live[i].a] == live[i].n
    requires var p := fl[t].a;
             p in ptr && p in size && p != live[j].a && (live[j].End() == ptr[p] ==> ptr[p] in ptr && ptr[p] in size)
    ensures fl[t].a >= base
    ensures var w, size' := Without(live, j), FreeLinks(ptr, size, fl[t].a, live[j].a).1;
            forall i :: 0 <= i < |w| ==> w[i].a in size' && size'[w[i].a] == w[i].n
  {
    hide Without, Sorted;
    WithoutSize(live, j);
    var w, size' := Without(live, j), FreeLinks(ptr, size, fl[t].a, live[j].a).1;
    if t > 0 {
      Before(fl, 0, t);
    }
    forall i | 0 <= i < |w|
      ensures w[i].a in size' && size'[w[i].a] == w[i].n
    {
      WithoutAt(live, j, i);
      var k := if i < j then i else i + 1;
      LiveAbove(fl, live, regions, base, top, k);
      assert !Overlap(live[j], live[k]) && live[k].n > 0 && live[j].n > 0;
      if t > 0 {
        Disjoint(fl, live, t, k);
      }
    }
  }
}
