/**
 Building address spaces: the kernel half that setupkvm enters (vm.c:113-144), a child's
 copy of its parent's pages (vm.c:309-337) and growth by zeroed pages (vm.c:220-243).
 */
module CopySpace {
  import opened PageTables
  import opened Frames
  import opened Teardown

  // ------------------------------------------------- the kernel half

  /** One row of kmap, in pages. */
  datatype KMap = KMap(first: nat, last: nat, frame: nat, perm: nat)

  predicate GoodRow(k: KMap) {
    USERPAGES <= k.first <= k.last < ALLPAGES && k.frame + (k.last - k.first) < ALLPAGES && k.perm < PGSIZE
  }

  ghost predicate GoodKmap(kmap: seq<KMap>) {
    && (forall i :: 0 <= i < |kmap| ==> GoodRow(kmap[i]))
    && (forall i, j :: 0 <= i < j < |kmap| ==> kmap[i].last < kmap[j].first || kmap[j].last < kmap[i].first)
  }

  /** kmap, with the kernel's data starting at physical page `data`. */
  function Kmap(data: nat): seq<KMap>
    requires 0x100 < data < 0xE000
  {
    [KMap(USERPAGES, USERPAGES + 0xFF, 0, PTE_W),
     KMap(USERPAGES + 0x100, USERPAGES + data - 1, 0x100, 0),
     KMap(USERPAGES + data, USERPAGES + 0xDFFF, data, PTE_W),
     KMap(0xFE000, 0xFFFFF, 0xFE000, PTE_W)]
  }

  lemma KmapIsGood(data: nat)
    requires 0x100 < data < 0xE000
    ensures GoodKmap(Kmap(data))
  {
  }

  predicate Covers(k: KMap, v: nat) {
    k.first <= v <= k.last
  }

  /** The entry that the rows of kmap give page v. */
  function KernelPte(kmap: seq<KMap>, v: nat): Word {
    if kmap == [] then 0
    else
      var k := kmap[|kmap| - 1];
      if Covers(k, v) && k.frame + (v - k.first) < ALLPAGES && k.perm < PGSIZE then Entry(k.frame + (v - k.first), k.perm)
      else KernelPte(kmap[..|kmap| - 1], v)
  }

  lemma {:induction false} NotCovered(kmap: seq<KMap>, n: nat, v: nat)
    requires n <= |kmap| && forall j :: 0 <= j < n ==> !Covers(kmap[j], v)
    ensures KernelPte(kmap[..n], v) == 0
  {
    if n > 0 {
      assert kmap[..n][..n - 1] == kmap[..n - 1];
      NotCovered(kmap, n - 1, v);
    }
  }

  /** User pages have no kernel entry, and no row is mapped over an earlier one. */
  lemma KernelPteFree(kmap: seq<KMap>, n: nat)
    requires GoodKmap(kmap) && n <= |kmap|
    ensures forall v: nat :: v < USERPAGES || (n < |kmap| && Covers(kmap[n], v)) ==> KernelPte(kmap[..n], v) == 0
  {
    forall v: nat | v < USERPAGES || (n < |kmap| && Covers(kmap[n], v))
      ensures KernelPte(kmap[..n], v) == 0
    {
      NotCovered(kmap, n, v);
    }
  }

  ghost predicate KernelOnly(kmap: seq<KMap>, m: Memory, d: nat) {
    forall v: nat :: Pte(m, d, v) == KernelPte(kmap, v)
  }

  lemma KernelMore(kmap: seq<KMap>, n: nat, m: Memory, m': Memory, d: nat)
    requires GoodKmap(kmap) && n < |kmap| && KernelOnly(kmap[..n], m, d)
    requires RangeSet(m, m', d, kmap[n].first, kmap[n].last + 1, kmap[n].frame, kmap[n].perm)
    ensures KernelOnly(kmap[..n + 1], m', d)
  {
    var k, ks := kmap[n], kmap[..n + 1];
    assert ks[..n] == kmap[..n] && ks[|ks| - 1] == k && GoodRow(k);
    forall v: nat
      ensures Pte(m', d, v) == KernelPte(ks, v)
    {
      assert Pte(m, d, v) == KernelPte(kmap[..n], v);
    }
  }

  // ------------------------------------------------- a new address space

  /** No frame that was not free has changed. */
  ghost predicate Untouched(m0: Memory, free0: seq<nat>, m: Memory) {
    |m| == |m0| && forall g: nat :: g < |m| && g !in free0 ==> m[g] == m0[g]
  }

  /** Address space d is made of frames that were free; with those still free they are all of them. */
  ghost predicate Fresh(r: Range, m0: Memory, free0: seq<nat>, m: Memory, free: seq<nat>, d: nat) {
    && Space(r, m, free, d) && Untouched(m0, free0, m)
    && forall g: nat :: g in free || Owns(m, d, g) <==> g in free0
  }

  lemma FreshDir(r: Range, m0: Memory, free0: seq<nat>)
    requires GoodRange(r, m0) && Distinct(free0) && free0 != [] && Managed(r, free0[0])
    ensures var d := free0[0];
            Fresh(r, m0, free0, m0[d := ZeroPage()], free0[1..], d) && KernelOnly([], m0[d := ZeroPage()], d)
  {
    var d := free0[0];
    var m := m0[d := ZeroPage()];
    assert forall x: nat :: Pde(m, d, x) == 0;
    assert forall v: nat :: Pte(m, d, v) == 0;
    assert forall s: nat :: Slot(m, d, s) == if s == 0 then d else 0;
    assert Slot(m, d, 0) == d;
    forall g: nat
      ensures g in free0[1..] || Owns(m, d, g) <==> g in free0
      ensures !(g in free0[1..] && Owns(m, d, g))
    {
      assert Owns(m, d, g) <==> g == d;
      assert g in free0 <==> g == d || g in free0[1..];
    }
  }

  lemma FreshEvolves(r: Range, m0: Memory, free0: seq<nat>, m1: Memory, free1: seq<nat>, m2: Memory, free2: seq<nat>, d: nat)
    requires Fresh(r, m0, free0, m1, free1, d) && Evolves(r, m1, free1, m2, free2, d, 0)
    ensures Fresh(r, m0, free0, m2, free2, d)
  {
    forall g: nat
      ensures g in free2 || Owns(m2, d, g) <==> g in free0
    {
      assert g in free1 || Owns(m1, d, g) <==> g in free0;
    }
    forall g: nat | g < |m2| && g !in free0
      ensures m2[g] == m0[g]
    {
      assert !(g in free1 || Owns(m1, d, g));
    }
  }

  /** An address space whose frames were not free is still there. */
  lemma OtherSpaceKept(r: Range, m0: Memory, free0: seq<nat>, m: Memory, p: nat)
    requires GoodRange(r, m0) && Space(r, m0, free0, p) && Untouched(m0, free0, m)
    ensures SamePtes(m0, m, p) && Exclusive(r, m, p) && forall g: nat :: Owns(m, p, g) <==> Owns(m0, p, g)
    ensures forall v: nat :: v < USERPAGES && Present(Pte(m0, p, v)) ==> SameFrame(m0, m, FrameOf(Pte(m0, p, v)))
  {
    assert Slot(m0, p, 0) == p && Owns(m0, p, p);
    assert forall x: nat :: Pde(m, p, x) == Pde(m0, p, x);
    forall v: nat
      ensures Pte(m, p, v) == Pte(m0, p, v)
    {
      var e := Pde(m0, p, v / NENTRIES);
      if Present(e) {
        assert Slot(m0, p, v / NENTRIES + 1) == FrameOf(e) && Owns(m0, p, FrameOf(e));
      }
    }
    assert SameSlots(m0, m, p);
    SameSlotsOwns(m0, m, p);
    forall v: nat | v < USERPAGES && Present(Pte(m0, p, v))
      ensures SameFrame(m0, m, FrameOf(Pte(m0, p, v)))
    {
      UserFrame(r, m0, free0, p, v);
    }
  }

  // ------------------------------------------------- copyuvm

  /** Page v of d, in m, has the flags and the bytes of page v of p in m0. */
  predicate SamePage(m0: Memory, p: nat, m: Memory, d: nat, v: nat) {
    var e0, e := Pte(m0, p, v), Pte(m, d, v);
    && Present(e) && FlagsOf(e) == FlagsOf(e0)
    && FrameOf(e0) < |m0| && FrameOf(e) < |m| && m[FrameOf(e)] == m0[FrameOf(e0)]
  }

  /** d maps copies of p's first n pages and, apart from those, the kernel. */
  ghost predicate Child(kmap: seq<KMap>, m0: Memory, p: nat, m: Memory, d: nat, n: nat) {
    && (forall v: nat :: v < n ==> SamePage(m0, p, m, d, v))
    && (forall v: nat :: v >= n ==> Pte(m, d, v) == KernelPte(kmap, v))
  }

  /** The parent's page n, copied to a frame f taken from the free list and mapped. */
  lemma ChildMore(r: Range, kmap: seq<KMap>, m0: Memory, free0: seq<nat>, p: nat,
                  m: Memory, free: seq<nat>, m1: Memory, m2: Memory, free2: seq<nat>, d: nat, n: nat, f: nat)
    requires GoodRange(r, m) && n < USERPAGES && Present(Pte(m0, p, n)) && FrameOf(Pte(m0, p, n)) < |m0|
    requires Fresh(r, m0, free0, m, [f] + free, d) && Child(kmap, m0, p, m, d, n)
    requires Managed(r, f) && f !in free && m1 == m[f := m0[FrameOf(Pte(m0, p, n))]]
    requires Evolves(r, m1, free, m2, free2, d, f) && RangeSet(m1, m2, d, n, n + 1, f, FlagsOf(Pte(m0, p, n)))
    ensures Child(kmap, m0, p, m2, d, n + 1) && Fresh(r, m0, free0, m2, free2, d)
  {
    hide Exclusive, Owns, Slot, Pte, Fresh, Evolves;
    NotHeld(r, m0, free0, m, free, d, f);
    FrameElsewhere(r, m, d, f, m1[f]);
    KeptFrame(r, m1, free, m2, free2, d, f);
    FreshMore(r, m0, free0, m, free, m1, m2, free2, d, f);
    forall v: nat | v < n
      ensures SamePage(m0, p, m2, d, v)
    {
      assert SamePage(m0, p, m, d, v);
      CopiesKept(r, m0, p, m, m1, free, m2, free2, d, n, f, v);
    }
    EntryFacts(f, FlagsOf(Pte(m0, p, n)));
    assert Pte(m2, d, n) == Entry(f, FlagsOf(Pte(m0, p, n)));
    forall v: nat | v >= n + 1
      ensures Pte(m2, d, v) == KernelPte(kmap, v)
    {
      assert Pte(m2, d, v) == Pte(m1, d, v) == Pte(m, d, v);
    }
  }

  lemma NotHeld(r: Range, m0: Memory, free0: seq<nat>, m: Memory, free: seq<nat>, d: nat, f: nat)
    requires Fresh(r, m0, free0, m, [f] + free, d)
    ensures Exclusive(r, m, d) && !Owns(m, d, f) && |m| == |m0|
  {
    assert f in [f] + free;
  }

  /** Frame f, off the free list and filled, is held by nobody. */
  lemma TakenFrame(r: Range, m0: Memory, free0: seq<nat>, m: Memory, free: seq<nat>, d: nat, f: nat, p: Page)
    requires GoodRange(r, m) && Fresh(r, m0, free0, m, [f] + free, d) && Managed(r, f) && f !in free
    ensures var m1 := m[f := p];
            && Space(r, m1, free, d) && Untouched(m0, free0, m1) && !Owns(m1, d, f)
            && forall g: nat :: g in free || Owns(m1, d, g) <==> g in free0 && g != f
  {
    NotHeld(r, m0, free0, m, free, d, f);
    FrameElsewhere(r, m, d, f, p);
    forall g: nat
      ensures g in free || Owns(m, d, g) <==> g in free0 && g != f
      ensures !(g in free && Owns(m, d, g))
    {
      assert g in [f] + free <==> g == f || g in free;
      assert g in [f] + free || Owns(m, d, g) <==> g in free0;
    }
    assert f in free0 by { assert f in [f] + free; }
  }

  lemma NoneTaken(r: Range, m0: Memory, free0: seq<nat>, m: Memory, free: seq<nat>, d: nat)
    requires Fresh(r, m0, free0, m, free, d) && 0 !in free
    ensures forall g: nat :: g in free || Owns(m, d, g) <==> g in free0 && g != 0
  {
    assert 0 !in free0;
  }

  lemma KeptFrame(r: Range, m: Memory, free: seq<nat>, m': Memory, free': seq<nat>, d: nat, f: nat)
    requires Evolves(r, m, free, m', free', d, f) && f < |m| && f !in free && !Owns(m, d, f)
    ensures SameFrame(m, m', f)
  {
  }

  lemma CopiesKept(r: Range, m0: Memory, p: nat, m: Memory, m1: Memory, free: seq<nat>, m2: Memory, free2: seq<nat>,
                   d: nat, n: nat, f: nat, v: nat)
    requires v < n < USERPAGES && SamePage(m0, p, m, d, v) && SamePtes(m, m1, d) && SameSlots(m, m1, d)
    requires Exclusive(r, m, d) && !Owns(m, d, f) && f < |m| == |m1| && m1 == m[f := m1[f]]
    requires Evolves(r, m1, free, m2, free2, d, f) && RangeSet(m1, m2, d, n, n + 1, f, FlagsOf(Pte(m0, p, n)))
    ensures SamePage(m0, p, m2, d, v)
  {
    hide Exclusive, Owns, Slot, Pte, Evolves;
    UserSlotHeld(r, m, d, v);
    var g := FrameOf(Pte(m, d, v));
    assert Slot(m1, d, UserSlot(v)) == g;
    MappedKept(r, m1, free, m2, free2, d, f, UserSlot(v));
    assert Pte(m2, d, v) == Pte(m1, d, v) == Pte(m, d, v);
  }

  lemma UserSlotHeld(r: Range, m: Memory, d: nat, v: nat)
    requires Exclusive(r, m, d) && v < USERPAGES && Present(Pte(m, d, v))
    ensures var g := FrameOf(Pte(m, d, v)); Slot(m, d, UserSlot(v)) == g && g != 0 && Owns(m, d, g)
  {
    assert Slot(m, d, UserSlot(v)) == FrameOf(Pte(m, d, v));
  }

  lemma MappedKept(r: Range, m: Memory, free: seq<nat>, m': Memory, free': seq<nat>, d: nat, extra: nat, s: nat)
    requires Evolves(r, m, free, m', free', d, extra) && s > NENTRIES && Slot(m, d, s) != 0
    ensures SameFrame(m, m', Slot(m, d, s))
  {
  }

  lemma FreshMore(r: Range, m0: Memory, free0: seq<nat>, m: Memory, free: seq<nat>, m1: Memory, m2: Memory, free2: seq<nat>, d: nat, f: nat)
    requires Fresh(r, m0, free0, m, [f] + free, d) && f != 0 && f < |m| == |m1| && m1 == m[f := m1[f]]
    requires forall g: nat :: Owns(m1, d, g) <==> Owns(m, d, g)
    requires Evolves(r, m1, free, m2, free2, d, f)
    ensures Fresh(r, m0, free0, m2, free2, d)
  {
    forall g: nat
      ensures g in free2 || Owns(m2, d, g) <==> g in free0
    {
      assert g in [f] + free <==> g == f || g in free;
      assert g in [f] + free || Owns(m, d, g) <==> g in free0;
    }
    forall g: nat | g < |m2| && g !in free0
      ensures m2[g] == m0[g]
    {
      assert g in [f] + free <==> g == f || g in free;
      assert !(g in [f] + free || Owns(m, d, g));
    }
  }

  /** The free list again holds what it held, without `lost` if that is not 0. */
  ghost predicate Returned(free0: seq<nat>, free: seq<nat>, lost: nat) {
    forall g: nat :: g in free <==> g in free0 && g != lost
  }

  // ------------------------------------------------- allocuvm

  /** Page v is mapped, writable and for the user, to a page of zeroes. */
  predicate ZeroAt(m: Memory, d: nat, v: nat) {
    var e := Pte(m, d, v);
    Present(e) && FlagsOf(e) == PTE_P + PTE_W + PTE_U && FrameOf(e) < |m| && m[FrameOf(e)] == ZeroPage()
  }

  /** Pages start .. a-1 have been added, zeroed; the other entries are as before. */
  ghost predicate GrownTo(m: Memory, m': Memory, d: nat, start: nat, a: nat) {
    && (forall v: nat :: start <= v < a ==> ZeroAt(m', d, v))
    && (forall v: nat :: !(start <= v < a) ==> Pte(m', d, v) == Pte(m, d, v))
  }

  lemma GrownMore(r: Range, m: Memory, m1: Memory, free1: seq<nat>, m2: Memory, free2: seq<nat>, d: nat, start: nat, a: nat)
    requires start <= a < USERPAGES && Exclusive(r, m1, d) && GrownTo(m, m1, d, start, a)
    requires Evolves(r, m1, free1, m2, free2, d, 0) && PteSet(m1, m2, d, a, Pte(m2, d, a)) && ZeroAt(m2, d, a)
    ensures GrownTo(m, m2, d, start, a + 1)
  {
    hide Exclusive, Owns, Slot, Pte, Evolves;
    forall v: nat | start <= v < a + 1
      ensures ZeroAt(m2, d, v)
    {
      if v < a {
        assert ZeroAt(m1, d, v);
        UserSlotHeld(r, m1, d, v);
        MappedKept(r, m1, free1, m2, free2, d, 0, UserSlot(v));
        assert Pte(m2, d, v) == Pte(m1, d, v);
      }
    }
    forall v: nat | !(start <= v < a + 1)
      ensures Pte(m2, d, v) == Pte(m, d, v)
    {
      assert Pte(m2, d, v) == Pte(m1, d, v);
    }
  }

  /**
   As Evolves, except that frame `lost`, if not 0, has left the free list without being
   held by any address space.
   */
  ghost predicate Accounted(r: Range, m: Memory, free: seq<nat>, m': Memory, free': seq<nat>, d: nat, lost: nat) {
    && |m'| == |m| && Space(r, m', free', d)
    && (lost != 0 ==> lost !in free' && !Owns(m', d, lost))
    && (forall g: nat :: g in free' || Owns(m', d, g) || (g == lost && g != 0) <==> g in free || Owns(m, d, g))
    && (forall g: nat :: g < |m| && g !in free && !Owns(m, d, g) ==> m'[g] == m[g])
    && (forall s: nat :: s > NENTRIES && Slot(m, d, s) != 0 ==> Slot(m', d, s) == Slot(m, d, s) && SameFrame(m, m', Slot(m, d, s)))
  }

  lemma NoneLost(r: Range, m: Memory, free: seq<nat>, m': Memory, free': seq<nat>, d: nat)
    requires Evolves(r, m, free, m', free', d, 0)
    ensures Accounted(r, m, free, m', free', d, 0)
  {
  }

  /** f is taken from the free list and zeroed, and that is all. */
  lemma OneLost(r: Range, m: Memory, free: seq<nat>, m1: Memory, free1: seq<nat>, d: nat, f: nat, p: Page)
    requires GoodRange(r, m) && Evolves(r, m, free, m1, [f] + free1, d, 0) && Managed(r, f) && f !in free1
    ensures f < |m1| && Accounted(r, m, free, m1[f := p], free1, d, f) && SamePtes(m1, m1[f := p], d)
  {
    var m2 := m1[f := p];
    assert f in [f] + free1;
    FrameElsewhere(r, m1, d, f, p);
    forall g: nat
      ensures g in free1 || Owns(m2, d, g) || (g == f && g != 0) <==> g in free || Owns(m, d, g)
      ensures !(g in free1 && Owns(m2, d, g))
      ensures g < |m| && g !in free && !Owns(m, d, g) ==> m2[g] == m[g]
    {
      assert g in [f] + free1 <==> g == f || g in free1;
      assert g in [f] + free1 || Owns(m1, d, g) <==> g in free || Owns(m, d, g);
    }
    forall s: nat | s > NENTRIES && Slot(m, d, s) != 0
      ensures Slot(m2, d, s) == Slot(m, d, s) && SameFrame(m, m2, Slot(m, d, s))
    {
      assert Slot(m2, d, s) == Slot(m1, d, s) == Slot(m, d, s);
      assert Owns(m1, d, Slot(m1, d, s));
    }
  }

  /** f is taken from the free list, filled and mapped. */
  lemma EvolvesTake(r: Range, m: Memory, free: seq<nat>, m1: Memory, m2: Memory, free2: seq<nat>, d: nat, f: nat)
    requires Space(r, m, [f] + free, d) && GoodRange(r, m) && Managed(r, f) && f !in free
    requires |m1| == |m| && m1 == m[f := m1[f]] && Evolves(r, m1, free, m2, free2, d, f)
    ensures Evolves(r, m, [f] + free, m2, free2, d, 0)
  {
    assert f in [f] + free;
    FrameElsewhere(r, m, d, f, m1[f]);
    forall g: nat
      ensures g in free2 || Owns(m2, d, g) <==> g in [f] + free || Owns(m, d, g)
      ensures g < |m| && g !in [f] + free && !Owns(m, d, g) ==> m2[g] == m[g]
    {
      assert g in [f] + free <==> g == f || g in free;
    }
    forall s: nat | s > NENTRIES && Slot(m, d, s) != 0
      ensures Slot(m2, d, s) == Slot(m, d, s) && SameFrame(m, m2, Slot(m, d, s))
    {
      assert Slot(m1, d, s) == Slot(m, d, s);
      assert Owns(m, d, Slot(m, d, s));
    }
  }

  lemma SpaceTake(r: Range, m: Memory, free: seq<nat>, d: nat, f: nat, p: Page)
    requires GoodRange(r, m) && Managed(r, f) && Space(r, m, [f] + free, d)
    ensures Space(r, m[f := p], free, d) && SamePtes(m, m[f := p], d) && !Owns(m[f := p], d, f)
  {
    assert f in [f] + free;
    FrameElsewhere(r, m, d, f, p);
    assert forall g: nat :: g in free ==> g in [f] + free;
  }

  lemma AccountedShrinks(r: Range, m: Memory, free: seq<nat>, m1: Memory, free1: seq<nat>, m2: Memory, free2: seq<nat>, d: nat, lost: nat)
    requires Accounted(r, m, free, m1, free1, d, lost) && Shrinks(r, m1, free1, m2, free2, d)
    requires forall s: nat :: s > NENTRIES && Slot(m, d, s) != 0 ==> Slot(m2, d, s) != 0
    ensures Accounted(r, m, free, m2, free2, d, lost)
  {
    hide Slot, Owns, Exclusive, Pte;
    forall g: nat
      ensures g in free2 || Owns(m2, d, g) || (g == lost && g != 0) <==> g in free || Owns(m, d, g)
      ensures g < |m| && g !in free && !Owns(m, d, g) ==> m2[g] == m[g]
    {
      assert g in free2 || Owns(m2, d, g) <==> g in free1 || Owns(m1, d, g);
    }
    assert lost != 0 ==> lost !in free2 && !Owns(m2, d, lost) by {
      assert lost in free2 || Owns(m2, d, lost) <==> lost in free1 || Owns(m1, d, lost);
    }
  }

  /** Giving back what was added: pages start .. a-1 are found, and no others are mapped from start to end. */
  lemma GrowthUndone(m: Memory, m1: Memory, m2: Memory, d: nat, start: nat, a: nat, end: nat)
    requires start <= a <= end <= USERPAGES && GrownTo(m, m1, d, start, a) && SweptAll(m1, m2, d, start, end)
    requires forall v: nat :: start <= v < end ==> !Present(Pte(m, d, v))
    ensures forall v: nat :: if start <= v < end then !Present(Pte(m2, d, v)) else Pte(m2, d, v) == Pte(m, d, v)
    ensures forall s: nat :: s > NENTRIES && Slot(m, d, s) != 0 ==> Slot(m2, d, s) != 0
  {
    forall v: nat
      ensures if start <= v < end then !Present(Pte(m2, d, v)) else Pte(m2, d, v) == Pte(m, d, v)
    {
      if start <= v < a {
        AddedVisited(m, m1, d, start, a, end, v);
      } else if Visits(m1, d, start, end, v) {
        VisitsRange(m1, d, start, end, v);
      }
    }
    forall s: nat | s > NENTRIES && Slot(m, d, s) != 0
      ensures Slot(m2, d, s) != 0
    {
      assert Pte(m2, d, s - NENTRIES - 1) == Pte(m, d, s - NENTRIES - 1);
    }
  }

  lemma AddedVisited(m: Memory, m1: Memory, d: nat, start: nat, a: nat, end: nat, v: nat)
    requires start <= v < a <= end && GrownTo(m, m1, d, start, a)
    ensures Visits(m1, d, start, end, v)
  {
    assert ZeroAt(m1, d, start) && ZeroAt(m1, d, v);
    MissedExactly(m1, d, start, end, v);
    assert Present(Pde(m1, d, start / NENTRIES));
    assert !JumpedOver(m1, d, start, v);
  }

  lemma ChildStart(kmap: seq<KMap>, m0: Memory, p: nat, m: Memory, d: nat)
    requires KernelOnly(kmap, m, d)
    ensures Child(kmap, m0, p, m, d, 0)
  {
  }

  lemma NewPte(m: Memory, m1: Memory, m2: Memory, d: nat, v: nat, f: nat)
    requires SamePtes(m, m1, d) && f < ALLPAGES && RangeSet(m1, m2, d, v, v + 1, f, PTE_W + PTE_U)
    ensures Pte(m2, d, v) == Entry(f, PTE_W + PTE_U) && PteSet(m, m2, d, v, Pte(m2, d, v))
  {
    hide Pte;
    forall u: nat
      ensures Pte(m2, d, u) == if u == v then Pte(m2, d, v) else Pte(m, d, u)
    {
      assert u != v ==> Pte(m2, d, u) == Pte(m1, d, u) == Pte(m, d, u);
    }
  }

  /** Filling a frame that d does not hold changes no page of d. */
  lemma GrownSame(r: Range, m: Memory, m1: Memory, m2: Memory, d: nat, start: nat, n: nat, f: nat)
    requires GrownTo(m, m1, d, start, n) && SamePtes(m1, m2, d) && Exclusive(r, m1, d) && n <= USERPAGES
    requires f < |m1| == |m2| && m2 == m1[f := m2[f]] && !Owns(m1, d, f)
    ensures GrownTo(m, m2, d, start, n)
  {
    hide Exclusive, Owns, Slot, Pte;
    forall v: nat | start <= v < n
      ensures ZeroAt(m2, d, v)
    {
      assert ZeroAt(m1, d, v);
      UserSlotHeld(r, m1, d, v);
      assert Pte(m2, d, v) == Pte(m1, d, v);
    }
  }

  lemma ZeroTables(m: Memory, d: nat)
    requires d < |m|
    ensures Tables(m[d := ZeroPage()], d) == {}
  {
  }

  /** Filling a frame that d does not hold changes no directory entry. */
  lemma SameTables(r: Range, m: Memory, d: nat, f: nat, p: Page)
    requires GoodRange(r, m) && Exclusive(r, m, d) && f < |m| && !Owns(m, d, f)
    ensures Tables(m[f := p], d) == Tables(m, d)
  {
    DirInMemory(r, m, d);
  }

  lemma PagesGrow(a: nat, b: nat)
    requires a <= b
    ensures Pages(a) <= Pages(b)
  {
  }
}
