/**
 The free list that kalloc.c threads through its free pages, and how an address space and
 the free list change together under walkpgdir and mappages.
 */
module Frames {
  import opened Basics
  import opened PageTables

  ghost predicate Distinct(s: seq<nat>) {
    forall i, j :: 0 <= i < j < |s| ==> s[i] != s[j]
  }

  /** The free list: managed frames, each once, linked through the first word of each page. */
  ghost predicate Chain(r: Range, m: Memory, head: nat, free: seq<nat>) {
    && GoodRange(r, m) && Distinct(free)
    && (forall i :: 0 <= i < |free| ==> Managed(r, free[i]))
    && head == (if free == [] then 0 else free[0])
    && forall i: nat :: i < |free| ==> LinkAt(m, free, i)
  }

  ghost predicate LinkAt(m: Memory, free: seq<nat>, i: nat)
    requires i < |free| && free[i] < |m|
  {
    FrameOf(m[free[i]][0]) == if i + 1 < |free| then free[i + 1] else 0
  }

  /** An address space in good order, apart from the free list. */
  ghost predicate Space(r: Range, m: Memory, free: seq<nat>, d: nat) {
    Exclusive(r, m, d) && forall g: nat :: !(g in free && Owns(m, d, g))
  }

  /**
   From memory m with free list `free` to m' with free': address space d stays in good order,
   and the frames that are free or held by d are the same, plus `extra` if that is not 0.
   No other frame is touched, and user pages already mapped keep their frames and contents.
   */
  ghost predicate Evolves(r: Range, m: Memory, free: seq<nat>, m': Memory, free': seq<nat>, d: nat, extra: nat) {
    && |m'| == |m| && Space(r, m', free', d)
    && (forall g: nat :: g in free' || Owns(m', d, g) <==> g in free || Owns(m, d, g) || (g == extra && g != 0))
    && (forall g: nat :: g < |m| && g !in free && !Owns(m, d, g) ==> m'[g] == m[g])
    && (forall s: nat :: s > NENTRIES && Slot(m, d, s) != 0 ==> Slot(m', d, s) == Slot(m, d, s) && SameFrame(m, m', Slot(m, d, s)))
  }

  predicate SameFrame(m: Memory, m': Memory, f: nat) {
    f < |m| && f < |m'| && m'[f] == m[f]
  }

  lemma EvolvesSelf(r: Range, m: Memory, free: seq<nat>, d: nat)
    requires Space(r, m, free, d) && GoodRange(r, m)
    ensures Evolves(r, m, free, m, free, d, 0)
  {
  }

  lemma EvolvesTransitive(r: Range, m: Memory, free: seq<nat>, m1: Memory, free1: seq<nat>,
                          m2: Memory, free2: seq<nat>, d: nat, extra: nat)
    requires Evolves(r, m, free, m1, free1, d, 0) && Evolves(r, m1, free1, m2, free2, d, extra)
    ensures Evolves(r, m, free, m2, free2, d, extra)
  {
    forall g: nat
      ensures g in free2 || Owns(m2, d, g) <==> g in free || Owns(m, d, g) || (g == extra && g != 0)
    {
      assert g in free1 || Owns(m1, d, g) <==> g in free || Owns(m, d, g);
    }
    forall g: nat | g < |m| && g !in free && !Owns(m, d, g)
      ensures m2[g] == m[g]
    {
      assert !(g in free1 || Owns(m1, d, g));
    }
  }

  /** A page table taken from the free list. */
  lemma EvolvesAddTable(r: Range, m: Memory, free: seq<nat>, d: nat, x: nat)
    requires GoodRange(r, m) && Space(r, m, free, d) && Distinct(free) && free != [] && Managed(r, free[0])
    requires x < NENTRIES && !Present(Pde(m, d, x))
    ensures d < |m| && d != free[0] && d !in free && free[0] < ALLPAGES
    ensures Evolves(r, m, free, AddTable(m, d, x, free[0]), free[1..], d, 0)
    ensures SamePtes(m, AddTable(m, d, x, free[0]), d) && Present(Pde(AddTable(m, d, x, free[0]), d, x))
    ensures Tables(AddTable(m, d, x, free[0]), d) == Tables(m, d) + {x} && x !in Tables(m, d)
  {
    var f := free[0];
    assert f in free;
    AddTableKeeps(r, m, d, x, f);
    assert Slot(m, d, 0) == d && Owns(m, d, d);
    var m' := AddTable(m, d, x, f);
    forall g: nat
      ensures g in free[1..] || Owns(m', d, g) <==> g in free || Owns(m, d, g)
      ensures !(g in free[1..] && Owns(m', d, g))
    {
      assert g in free <==> g == f || g in free[1..];
    }
  }

  /** The frame that mapping entry w at page v adds to the address space. */
  function Gains(v: nat, w: Word): nat {
    if v < USERPAGES then FrameOf(w) else 0
  }

  ghost predicate CanMap(r: Range, m: Memory, free: seq<nat>, d: nat, v: nat, w: Word) {
    && v < ALLPAGES && Present(w) && !Present(Pte(m, d, v))
    && (v < USERPAGES ==> Managed(r, FrameOf(w)) && FrameOf(w) !in free && !Owns(m, d, FrameOf(w)))
  }

  ghost predicate PteSet(m: Memory, m': Memory, d: nat, v: nat, w: Word) {
    forall u: nat :: Pte(m', d, u) == if u == v then w else Pte(m, d, u)
  }

  /** Writing an entry into an existing table. */
  lemma EvolvesSetPte(r: Range, m: Memory, free: seq<nat>, d: nat, v: nat, w: Word)
    requires GoodRange(r, m) && Space(r, m, free, d) && CanMap(r, m, free, d, v, w) && Present(Pde(m, d, v / NENTRIES))
    ensures FrameOf(Pde(m, d, v / NENTRIES)) < |m| && FrameOf(Pde(m, d, v / NENTRIES)) !in free
    ensures Evolves(r, m, free, SetPte(m, d, v, w), free, d, Gains(v, w)) && PteSet(m, SetPte(m, d, v, w), d, v, w)
    ensures Tables(SetPte(m, d, v, w), d) == Tables(m, d)
  {
    var t := FrameOf(Pde(m, d, v / NENTRIES));
    assert Slot(m, d, v / NENTRIES + 1) == t;
    TableFrame(r, m, d, v / NENTRIES);
    assert Owns(m, d, t);
    SetPteEntries(r, m, d, v, w);
    var m' := SetPte(m, d, v, w);
    if v < USERPAGES {
      MapUser(r, m, d, v, w);
    } else {
      MapKernel(r, m, d, v, w);
    }
    forall s: nat | s > NENTRIES && Slot(m, d, s) != 0
      ensures Slot(m', d, s) == Slot(m, d, s) && SameFrame(m, m', Slot(m, d, s))
    {
      assert Slot(m, d, s) != t;
    }
  }

  /** Directory entry x is present now, at the cost of a frame if it was not; no other entry is new. */
  ghost predicate Opened(m: Memory, free: seq<nat>, m': Memory, free': seq<nat>, d: nat, xs: set<nat>) {
    Tables(m', d) == Tables(m, d) + xs && |free'| + |Tables(m', d)| == |free| + |Tables(m, d)|
  }

  lemma OpenedMore(m: Memory, free: seq<nat>, m1: Memory, free1: seq<nat>, m2: Memory, free2: seq<nat>, d: nat, xs: set<nat>, ys: set<nat>)
    requires Opened(m, free, m1, free1, d, xs) && Opened(m1, free1, m2, free2, d, ys)
    ensures Opened(m, free, m2, free2, d, xs + ys)
  {
    assert Tables(m, d) + (xs + ys) == Tables(m, d) + xs + ys;
  }

  /** What mapping needs still holds after walkpgdir has provided a table. */
  lemma CanMapAfter(r: Range, m: Memory, free: seq<nat>, m1: Memory, free1: seq<nat>, d: nat, v: nat, w: Word)
    requires CanMap(r, m, free, d, v, w) && Evolves(r, m, free, m1, free1, d, 0) && SamePtes(m, m1, d)
    ensures CanMap(r, m1, free1, d, v, w)
    ensures forall m2: Memory :: PteSet(m1, m2, d, v, w) ==> PteSet(m, m2, d, v, w)
  {
    assert Pte(m1, d, v) == Pte(m, d, v);
    forall m2: Memory | PteSet(m1, m2, d, v, w)
      ensures PteSet(m, m2, d, v, w)
    {
      forall u: nat
        ensures Pte(m2, d, u) == if u == v then w else Pte(m, d, u)
      {
        assert Pte(m1, d, u) == Pte(m, d, u);
      }
    }
  }

  /** A page freed: filled with junk, then linked to the old head of the list. */
  function Junk(head: nat): Page
    requires head < ALLPAGES
  {
    seq(NENTRIES, _ => 0x0101_0101)[0 := head * PGSIZE]
  }

  lemma ChainPush(r: Range, m: Memory, head: nat, free: seq<nat>, f: nat)
    requires Chain(r, m, head, free) && Managed(r, f) && f !in free && head < ALLPAGES
    ensures Chain(r, m[f := Junk(head)], f, [f] + free)
  {
    var m', fs := m[f := Junk(head)], [f] + free;
    assert FrameOf(Junk(head)[0]) == head;
    forall i: nat | i < |fs|
      ensures LinkAt(m', fs, i)
    {
      if i > 0 {
        assert fs[i] == free[i - 1] && LinkAt(m, free, i - 1);
      }
    }
  }

  lemma ChainElsewhere(r: Range, m: Memory, head: nat, free: seq<nat>, f: nat, p: Page)
    requires Chain(r, m, head, free) && f < |m| && f !in free
    ensures Chain(r, m[f := p], head, free)
  {
    var m' := m[f := p];
    forall i: nat | i < |free|
      ensures LinkAt(m', free, i)
    {
      assert LinkAt(m, free, i);
    }
  }

  lemma ChainPop(r: Range, m: Memory, head: nat, free: seq<nat>)
    requires Chain(r, m, head, free) && free != []
    ensures head < |m| && Chain(r, m, FrameOf(m[head][0]), free[1..]) && head !in free[1..]
  {
    assert LinkAt(m, free, 0);
    forall i: nat | i < |free[1..]|
      ensures LinkAt(m, free[1..], i)
    {
      assert LinkAt(m, free, i + 1);
    }
  }

  /** Pages first .. upto-1 map consecutive frames from `frame` on; the other entries are as before. */
  ghost predicate RangeSet(m: Memory, m': Memory, d: nat, first: nat, upto: nat, frame: nat, perm: nat) {
    && perm < PGSIZE
    && forall v: nat :: if first <= v < upto && frame + (v - first) < ALLPAGES then Pte(m', d, v) == Entry(frame + (v - first), perm)
                        else Pte(m', d, v) == Pte(m, d, v)
  }

  lemma RangeNone(m: Memory, d: nat, first: nat, frame: nat, perm: nat)
    requires perm < PGSIZE
    ensures RangeSet(m, m, d, first, first, frame, perm)
  {
  }

  lemma RangeMore(m: Memory, m1: Memory, m2: Memory, d: nat, first: nat, a: nat, frame: nat, perm: nat)
    requires perm < PGSIZE && first <= a && frame + (a - first) < ALLPAGES
    requires RangeSet(m, m1, d, first, a, frame, perm) && PteSet(m1, m2, d, a, Entry(frame + (a - first), perm))
    ensures RangeSet(m, m2, d, first, a + 1, frame, perm)
  {
    forall v: nat
      ensures if first <= v < a + 1 && frame + (v - first) < ALLPAGES then Pte(m2, d, v) == Entry(frame + (v - first), perm)
              else Pte(m2, d, v) == Pte(m, d, v)
    {
      assert Pte(m2, d, v) == if v == a then Entry(frame + (a - first), perm) else Pte(m1, d, v);
    }
  }

  /** pa | perm | PTE_P */
  function Entry(frame: nat, perm: nat): Word
    requires frame < ALLPAGES && perm < PGSIZE
  {
    frame * PGSIZE + (if perm % 2 == 1 then perm else perm + 1)
  }

  lemma EntryFacts(frame: nat, perm: nat)
    requires frame < ALLPAGES && perm < PGSIZE
    ensures Present(Entry(frame, perm)) && FrameOf(Entry(frame, perm)) == frame
    ensures FlagsOf(Entry(frame, perm)) == if perm % 2 == 1 then perm else perm + 1
  {
    hide Present, FrameOf, FlagsOf;
    PageAndFlags(frame, if perm % 2 == 1 then perm else perm + 1);
  }

  /** A frame number and flags, put together and taken apart. */
  lemma PageAndFlags(frame: nat, k: nat)
    requires frame < ALLPAGES && k < PGSIZE && k % 2 == 1
    ensures var w := frame * PGSIZE + k;
            w < 0x1_0000_0000 && Present(w) && FrameOf(w) == frame && FlagsOf(w) == k
  {
    assert frame * PGSIZE + k == 2 * (frame * 2048 + k / 2) + 1;
  }

  lemma DirInMemory(r: Range, m: Memory, d: nat)
    requires GoodRange(r, m) && Exclusive(r, m, d)
    ensures d < |m| && Managed(r, d) && Owns(m, d, d)
  {
    assert Slot(m, d, 0) == d;
  }

  /** With the tables up to xs and no frame for x, those in ys are out of reach. */
  lemma OneTableShort(ts: set<nat>, xs: set<nat>, x: nat, ys: set<nat>)
    requires x !in ts + xs && xs + {x} <= ys
    ensures |ts + ys| > |ts + xs|
  {
    SubsetSize(ts + xs + {x}, ts + ys);
  }
}
