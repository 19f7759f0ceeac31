/**
 Which pages deallocuvm reaches (vm.c:249-273). It steps page by page, but where the
 directory has no table it jumps 1024 pages ahead from wherever it stands.
 */
module Teardown {
  import opened PageTables
  import opened Frames

  /** deallocuvm's loop, standing at page a with limit end, gets to look at page v. */
  ghost predicate Visits(m: Memory, d: nat, a: nat, end: nat, v: nat)
    decreases end - a
  {
    a < end &&
    if Present(Pde(m, d, a / NENTRIES)) then v == a || Visits(m, d, a + 1, end, v)
    else Visits(m, d, a + NENTRIES, end, v)
  }

  lemma {:induction false} VisitsRange(m: Memory, d: nat, a: nat, end: nat, v: nat)
    requires Visits(m, d, a, end, v)
    ensures a <= v < end && Present(Pde(m, d, v / NENTRIES))
    decreases end - a
  {
    if Present(Pde(m, d, a / NENTRIES)) {
      if v != a {
        VisitsRange(m, d, a + 1, end, v);
      }
    } else {
      VisitsRange(m, d, a + NENTRIES, end, v);
    }
  }

  /** Page v lies in the first table after a, but below a's own offset into its table. */
  ghost predicate JumpedOver(m: Memory, d: nat, a: nat, v: nat) {
    v % NENTRIES < a % NENTRIES && forall y: nat :: a / NENTRIES <= y < v / NENTRIES ==> !Present(Pde(m, d, y))
  }

  /** The mapped pages that deallocuvm misses are exactly those it jumps over. */
  lemma {:induction false} MissedExactly(m: Memory, d: nat, a: nat, end: nat, v: nat)
    requires a <= v < end && Present(Pte(m, d, v))
    ensures Visits(m, d, a, end, v) <==> !JumpedOver(m, d, a, v)
    decreases end - a
  {
    var x, y := a / NENTRIES, v / NENTRIES;
    assert Present(Pde(m, d, y));
    if Present(Pde(m, d, x)) {
      if v > a {
        MissedExactly(m, d, a + 1, end, v);
        assert !JumpedOver(m, d, a, v);
        assert !JumpedOver(m, d, a + 1, v) by {
          if (a + 1) / NENTRIES == x {
            assert y > x || v % NENTRIES >= (a + 1) % NENTRIES;
          }
        }
      }
    } else {
      assert y > x && (a + NENTRIES) / NENTRIES == x + 1 && (a + NENTRIES) % NENTRIES == a % NENTRIES;
      if v < a + NENTRIES {
        assert y == x + 1;
        if Visits(m, d, a + NENTRIES, end, v) {
          VisitsRange(m, d, a + NENTRIES, end, v);
        }
      } else {
        MissedExactly(m, d, a + NENTRIES, end, v);
      }
    }
  }

  /** Nothing is missed when the start is on a directory boundary. */
  lemma AlignedMissesNothing(m: Memory, d: nat, a: nat, end: nat, v: nat)
    requires a % NENTRIES == 0 && a <= v < end && Present(Pte(m, d, v))
    ensures Visits(m, d, a, end, v)
  {
    MissedExactly(m, d, a, end, v);
  }

  /** Nothing is missed when the mapped pages are those below some size. */
  lemma ContiguousMissesNothing(m: Memory, d: nat, n: nat, a: nat, end: nat, v: nat)
    requires forall u: nat :: u < end ==> (Present(Pte(m, d, u)) <==> u < n)
    requires a <= v < end && Present(Pte(m, d, v))
    ensures Visits(m, d, a, end, v)
  {
    assert Present(Pte(m, d, a));
    MissedExactly(m, d, a, end, v);
  }

  /** Page 1025 is mapped alone; freeing from page 2 on jumps from 2 to 1026 and misses it. */
  lemma MissedExample(m: Memory, d: nat)
    requires !Present(Pde(m, d, 0)) && Present(Pte(m, d, 1025))
    ensures !Visits(m, d, 2, 2048, 1025)
  {
    assert JumpedOver(m, d, 2, 1025);
    MissedExactly(m, d, 2, 2048, 1025);
  }

  // ------------------------------------------------- giving pages back

  /**
   From memory m with free list `free` to m' with free': the frames free or held by d are the
   same, the directory is unchanged, no other frame is touched, and the user pages that remain
   keep their frames and contents.
   */
  ghost predicate Shrinks(r: Range, m: Memory, free: seq<nat>, m': Memory, free': seq<nat>, d: nat) {
    && |m'| == |m| && Space(r, m', free', d)
    && (forall g: nat :: g in free' || Owns(m', d, g) <==> g in free || Owns(m, d, g))
    && (forall g: nat :: g < |m| && g !in free && !Owns(m, d, g) ==> m'[g] == m[g])
    && (forall x: nat :: Pde(m', d, x) == Pde(m, d, x))
    && (forall s: nat :: s > NENTRIES && Slot(m', d, s) != 0 ==> Slot(m', d, s) == Slot(m, d, s) && SameFrame(m, m', Slot(m, d, s)))
  }

  lemma ShrinksSelf(r: Range, m: Memory, free: seq<nat>, d: nat)
    requires GoodRange(r, m) && Space(r, m, free, d)
    ensures Shrinks(r, m, free, m, free, d)
  {
  }

  lemma ShrinksTransitive(r: Range, m: Memory, free: seq<nat>, m1: Memory, free1: seq<nat>, m2: Memory, free2: seq<nat>, d: nat)
    requires Shrinks(r, m, free, m1, free1, d) && Shrinks(r, m1, free1, m2, free2, d)
    ensures Shrinks(r, m, free, m2, free2, d)
  {
    forall g: nat
      ensures g in free2 || Owns(m2, d, g) <==> g in free || Owns(m, d, g)
    {
      assert g in free1 || Owns(m1, d, g) <==> g in free || Owns(m, d, g);
    }
    forall g: nat | g < |m| && g !in free && !Owns(m, d, g)
      ensures m2[g] == m[g]
    {
      assert !(g in free1 || Owns(m1, d, g));
    }
  }

  /** User page v's frame is one that can be freed. */
  lemma UserFrame(r: Range, m: Memory, free: seq<nat>, d: nat, v: nat)
    requires GoodRange(r, m) && Space(r, m, free, d) && v < USERPAGES && Present(Pte(m, d, v))
    ensures Present(Pde(m, d, v / NENTRIES))
    ensures var f, t := FrameOf(Pte(m, d, v)), FrameOf(Pde(m, d, v / NENTRIES));
            && Managed(r, f) && f !in free && Owns(m, d, f) && f != d && f != t
            && Managed(r, t) && t !in free && t != d
  {
    var f, t := FrameOf(Pte(m, d, v)), FrameOf(Pde(m, d, v / NENTRIES));
    assert Slot(m, d, UserSlot(v)) == f && Slot(m, d, v / NENTRIES + 1) == t && Slot(m, d, 0) == d;
    assert Owns(m, d, f) && Owns(m, d, t);
  }

  /** kfree on the frame of user page v, then its table entry cleared. */
  lemma FreeUser(r: Range, m: Memory, free: seq<nat>, d: nat, v: nat, p: Page)
    requires GoodRange(r, m) && Space(r, m, free, d) && v < USERPAGES && Present(Pte(m, d, v))
    ensures var f, t := FrameOf(Pte(m, d, v)), FrameOf(Pde(m, d, v / NENTRIES));
            && f < |m| && t < |m|
            && var m' := m[f := p][t := m[t][v % NENTRIES := 0]];
            && Shrinks(r, m, free, m', [f] + free, d) && PteSet(m, m', d, v, 0)
  {
    var f, t := FrameOf(Pte(m, d, v)), FrameOf(Pde(m, d, v / NENTRIES));
    UserFrame(r, m, free, d, v);
    UnmapUser(r, m, d, v);
    SetPteEntries(r, m, d, v, 0);
    var m1 := SetPte(m, d, v, 0);
    var m' := m[f := p][t := m[t][v % NENTRIES := 0]];
    assert m' == m1[f := p];
    FrameElsewhere(r, m1, d, f, p);
    UnmappedShrinks(r, m, free, m1, m', d, v);
  }

  lemma UnmappedShrinks(r: Range, m: Memory, free: seq<nat>, m1: Memory, m': Memory, d: nat, v: nat)
    requires GoodRange(r, m) && Space(r, m, free, d) && |m1| == |m| == |m'| && v < USERPAGES && Present(Pte(m, d, v))
    requires Exclusive(r, m', d) && SlotsWith(m, m1, d, UserSlot(v), 0) && SameSlots(m1, m', d)
    requires forall g: nat :: Owns(m', d, g) <==> Owns(m, d, g) && g != FrameOf(Pte(m, d, v))
    requires forall x: nat :: Pde(m1, d, x) == Pde(m, d, x)
    requires forall g: nat :: g < |m| && g != FrameOf(Pte(m, d, v)) && g != FrameOf(Pde(m, d, v / NENTRIES)) ==> m'[g] == m[g]
    requires m'[d] == m[d]
    ensures Shrinks(r, m, free, m', [FrameOf(Pte(m, d, v))] + free, d)
  {
    var f, t := FrameOf(Pte(m, d, v)), FrameOf(Pde(m, d, v / NENTRIES));
    UserFrame(r, m, free, d, v);
    forall s: nat | s > NENTRIES && Slot(m', d, s) != 0
      ensures Slot(m', d, s) == Slot(m, d, s) && SameFrame(m, m', Slot(m, d, s))
    {
      assert Slot(m', d, s) == Slot(m1, d, s);
      assert Slot(m, d, UserSlot(v)) == f && Slot(m, d, v / NENTRIES + 1) == t;
    }
    assert Owns(m, d, t) by { assert Slot(m, d, v / NENTRIES + 1) == t; }
  }

  // ------------------------------------------------- deallocuvm's loop

  /** The entry deallocuvm leaves for a page it has looked at. */
  function Swept(w: Word): Word {
    if Present(w) then 0 else w
  }

  /** The loop started at page a0 and stands at a: the pages looked at so far are swept, the others as they were. */
  ghost predicate SweptTo(m: Memory, m': Memory, d: nat, a0: nat, a: nat, end: nat) {
    && (forall v: nat :: Visits(m, d, a, end, v) ==> Visits(m, d, a0, end, v))
    && (forall v: nat :: Pte(m', d, v) == if Visits(m, d, a0, end, v) && !Visits(m, d, a, end, v) then Swept(Pte(m, d, v)) else Pte(m, d, v))
  }

  lemma SweepStart(m: Memory, d: nat, a: nat, end: nat)
    ensures SweptTo(m, m, d, a, a, end)
  {
  }

  lemma SweepJump(m: Memory, m': Memory, d: nat, a0: nat, a: nat, end: nat)
    requires SweptTo(m, m', d, a0, a, end) && a < end && !Present(Pde(m, d, a / NENTRIES))
    ensures SweptTo(m, m', d, a0, a + NENTRIES, end)
  {
    assert forall v: nat :: Visits(m, d, a, end, v) == Visits(m, d, a + NENTRIES, end, v);
  }

  lemma SweepPage(m: Memory, m1: Memory, m2: Memory, d: nat, a0: nat, a: nat, end: nat)
    requires SweptTo(m, m1, d, a0, a, end) && a < end && Present(Pde(m, d, a / NENTRIES))
    requires PteSet(m1, m2, d, a, Swept(Pte(m1, d, a)))
    ensures SweptTo(m, m2, d, a0, a + 1, end)
  {
    assert forall v: nat :: Visits(m, d, a, end, v) == (v == a || Visits(m, d, a + 1, end, v));
    if Visits(m, d, a + 1, end, a) {
      VisitsRange(m, d, a + 1, end, a);
    }
    assert Visits(m, d, a, end, a) && Pte(m1, d, a) == Pte(m, d, a);
    forall v: nat
      ensures Pte(m2, d, v) == if Visits(m, d, a0, end, v) && !Visits(m, d, a + 1, end, v) then Swept(Pte(m, d, v)) else Pte(m, d, v)
    {
      assert Pte(m2, d, v) == if v == a then Swept(Pte(m1, d, a)) else Pte(m1, d, v);
      assert Visits(m, d, a, end, v) == (v == a || Visits(m, d, a + 1, end, v));
    }
  }

  /** What deallocuvm does to the table entries, from page a to page end. */
  ghost predicate SweptAll(m: Memory, m': Memory, d: nat, a: nat, end: nat) {
    forall v: nat :: Pte(m', d, v) == if Visits(m, d, a, end, v) then Swept(Pte(m, d, v)) else Pte(m, d, v)
  }

  lemma SweepEnd(m: Memory, m': Memory, d: nat, a0: nat, a: nat, end: nat)
    requires SweptTo(m, m', d, a0, a, end) && a >= end
    ensures SweptAll(m, m', d, a0, end)
  {
    assert forall v: nat :: !Visits(m, d, a, end, v);
  }

  // ------------------------------------------------- freevm

  /** g is one of the first i page tables. */
  ghost predicate TableBelow(m: Memory, d: nat, i: nat, g: nat) {
    g != 0 && exists s: nat :: 1 <= s <= i && Slot(m, d, s) == g
  }

  /** With no user page mapped, an address space holds its tables and its directory. */
  lemma OnlyTables(m: Memory, d: nat)
    requires d != 0 && forall v: nat :: v < USERPAGES ==> !Present(Pte(m, d, v))
    ensures forall g: nat :: Owns(m, d, g) <==> g == d || TableBelow(m, d, NENTRIES, g)
  {
    forall g: nat
      ensures Owns(m, d, g) <==> g == d || TableBelow(m, d, NENTRIES, g)
    {
      assert Slot(m, d, 0) == d;
      if Owns(m, d, g) {
        var s: nat :| Slot(m, d, s) == g;
        assert s <= NENTRIES;
      }
    }
  }

  /** freevm has freed the first i page tables of the address space it found in m, free. */
  ghost predicate Freeing(m: Memory, free: seq<nat>, m': Memory, free': seq<nat>, d: nat, i: nat) {
    && |m'| == |m| && d < |m| && m'[d] == m[d]
    && (forall g: nat :: g in free' <==> g in free || TableBelow(m, d, i, g))
    && (forall g: nat :: g < |m| && g !in free && !Owns(m, d, g) ==> m'[g] == m[g])
  }

  lemma TableNext(r: Range, m: Memory, free: seq<nat>, free': seq<nat>, d: nat, i: nat)
    requires GoodRange(r, m) && Space(r, m, free, d) && i < NENTRIES
    requires forall g: nat :: g in free' <==> g in free || TableBelow(m, d, i, g)
    ensures var t := Slot(m, d, i + 1);
            && (t == 0 <==> !Present(Pde(m, d, i))) && (t != 0 ==> t == FrameOf(Pde(m, d, i)))
            && (t != 0 ==> Managed(r, t) && t !in free' && t != d && Owns(m, d, t))
            && forall g: nat :: TableBelow(m, d, i + 1, g) <==> TableBelow(m, d, i, g) || (g == t && t != 0)
  {
    var t := Slot(m, d, i + 1);
    assert Slot(m, d, 0) == d;
    if t != 0 {
      assert Owns(m, d, t);
    }
    forall g: nat
      ensures TableBelow(m, d, i + 1, g) <==> TableBelow(m, d, i, g) || (g == t && t != 0)
    {
      if TableBelow(m, d, i + 1, g) {
        var s: nat :| 1 <= s <= i + 1 && Slot(m, d, s) == g;
        assert s == i + 1 || TableBelow(m, d, i, g);
      }
    }
  }

  lemma FreeingStart(m: Memory, free: seq<nat>, d: nat)
    requires d < |m|
    ensures Freeing(m, free, m, free, d, 0)
  {
  }

  /** Bytes to pages, rounding up. */
  function Pages(sz: nat): nat {
    (sz + PGSIZE - 1) / PGSIZE
  }

  /** Sweeping from 0 to KERNBASE leaves no user page. */
  lemma AllSwept(m: Memory, m': Memory, d: nat)
    requires SweptAll(m, m', d, 0, USERPAGES)
    ensures forall v: nat :: v < USERPAGES ==> !Present(Pte(m', d, v))
  {
    forall v: nat | v < USERPAGES
      ensures !Present(Pte(m', d, v))
    {
      if Present(Pte(m, d, v)) {
        AlignedMissesNothing(m, d, 0, USERPAGES, v);
      }
    }
  }

  lemma DirNotTable(r: Range, m: Memory, free: seq<nat>, d: nat)
    requires Space(r, m, free, d)
    ensures d !in free && d != 0 && !TableBelow(m, d, NENTRIES, d)
  {
    assert Slot(m, d, 0) == d && Owns(m, d, d);
  }
}
