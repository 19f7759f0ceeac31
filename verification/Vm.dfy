/**
 kalloc.c and vm.c as they run: physical memory with the free list threaded through its
 free pages, page directories and tables written in place.
 */
module Vm {
  import opened PageTables
  import opened Frames
  import opened Teardown
  import opened CopySpace
  import opened FrameNeeds

  class Machine {
    const r: Range
    var mem: Memory
    var freelist: nat
    ghost var free: seq<nat>

    constructor (r: Range, mem: Memory)
      requires GoodRange(r, mem)
      ensures this.r == r && this.mem == mem && free == [] && Valid()
    {
      this.r, this.mem, freelist, free := r, mem, 0, [];
    }

    ghost predicate Valid()
      reads this
    {
      Chain(r, mem, freelist, free)
    }

    /** kalloc; 0 if there is no free page. */
    method Kalloc() returns (f: nat)
      requires Valid()
      modifies this`freelist, this`free
      ensures Valid() && (f == 0 <==> old(free) == [])
      ensures f == 0 ==> free == old(free)
      ensures f != 0 ==> old(free) == [f] + free && Managed(r, f) && f !in free
    {
      f := freelist;
      if f != 0 {
        ChainPop(r, mem, freelist, free);
        freelist := FrameOf(mem[f][0]);
        free := free[1..];
      }
    }

    /** kfree, for a managed page; double frees are excluded. */
    method Kfree(f: nat)
      requires Valid() && Managed(r, f) && f !in free
      modifies this
      ensures Valid() && free == [f] + old(free) && |mem| == |old(mem)|
      ensures mem == old(mem)[f := mem[f]]
    {
      ChainPush(r, mem, freelist, free, f);
      mem := mem[f := Junk(freelist)];
      freelist := f;
      free := [f] + free;
    }

    /** freerange, in pages: every page of [from, to). */
    method Freerange(from: nat, to: nat)
      requires Valid() && r.lo <= from <= to <= r.hi && forall f: nat :: from <= f < to ==> f !in free
      modifies this
      ensures Valid() && |free| == |old(free)| + (to - from)
      ensures forall f: nat :: f in free <==> f in old(free) || from <= f < to
    {
      for p := from to to
        invariant Valid() && |free| == |old(free)| + (p - from)
        invariant forall f: nat :: f in free <==> f in old(free) || from <= f < p
      {
        Kfree(p);
      }
    }

    /** walkpgdir for virtual page v: true if there is (now) a page table for it. */
    method Walkpgdir(d: nat, v: nat, alloc: bool) returns (ok: bool)
      requires Valid() && Space(r, mem, free, d) && v < ALLPAGES
      modifies this
      ensures Valid() && Evolves(r, old(mem), old(free), mem, free, d, 0) && SamePtes(old(mem), mem, d)
      ensures ok <==> Present(Pde(mem, d, v / NENTRIES))
      ensures Present(Pde(old(mem), d, v / NENTRIES)) || !alloc || !ok ==> mem == old(mem) && free == old(free)
      ensures alloc ==> (ok <==> v / NENTRIES in Tables(old(mem), d) || old(free) != [])
      ensures ok ==> Opened(old(mem), old(free), mem, free, d, {v / NENTRIES})
    {
      EvolvesSelf(r, mem, free, d);
      DirInMemory(r, mem, d);
      if Present(mem[d][v / NENTRIES]) {
        assert Tables(mem, d) + {v / NENTRIES} == Tables(mem, d);
        return true;
      }
      if !alloc {
        return false;
      }
      if free != [] {
        EvolvesAddTable(r, mem, free, d, v / NENTRIES);
      }
      var f := Kalloc();
      if f == 0 {
        return false;
      }
      ChainElsewhere(r, mem, freelist, free, f, ZeroPage());
      mem := mem[f := ZeroPage()];
      TableEntry(f);
      var page := mem[d][v / NENTRIES := f * PGSIZE + (PTE_P + PTE_W + PTE_U)];
      ChainElsewhere(r, mem, freelist, free, d, page);
      mem := mem[d := page];
      return true;
    }

    /** One round of mappages: entry w for page v. */
    method MapPage(d: nat, v: nat, w: Word) returns (ok: bool)
      requires Valid() && Space(r, mem, free, d) && CanMap(r, mem, free, d, v, w)
      modifies this
      ensures Valid() && Space(r, mem, free, d)
      ensures ok ==> Evolves(r, old(mem), old(free), mem, free, d, Gains(v, w)) && PteSet(old(mem), mem, d, v, w)
      ensures !ok ==> mem == old(mem) && free == old(free) == []
      ensures ok <==> v / NENTRIES in Tables(old(mem), d) || old(free) != []
      ensures ok ==> Opened(old(mem), old(free), mem, free, d, {v / NENTRIES})
    {
      hide Exclusive, Owns, Slot, Tables;
      ghost var m, fs := mem, free;
      ok := Walkpgdir(d, v, true);
      if ok {
        CanMapAfter(r, m, fs, mem, free, d, v, w);
        EvolvesSetPte(r, mem, free, d, v, w);
        EvolvesTransitive(r, m, fs, mem, free, SetPte(mem, d, v, w), free, d, Gains(v, w));
        var t := FrameOf(Pde(mem, d, v / NENTRIES));
        ChainElsewhere(r, mem, freelist, free, t, mem[t][v % NENTRIES := w]);
        mem := mem[t := mem[t][v % NENTRIES := w]];
      }
    }

    /** mappages for pages first .. last, either all in the kernel half or one user page. */
    method Mappages(d: nat, first: nat, last: nat, frame: nat, perm: nat) returns (ok: bool)
      requires Valid() && Space(r, mem, free, d) && perm < PGSIZE
      requires first <= last < ALLPAGES && frame + (last - first) < ALLPAGES
      requires forall v: nat :: first <= v <= last ==> !Present(Pte(mem, d, v))
      requires first >= USERPAGES || (first == last && Managed(r, frame) && frame !in free && !Owns(mem, d, frame))
      modifies this
      ensures Valid() && Space(r, mem, free, d)
      ensures ok ==> Evolves(r, old(mem), old(free), mem, free, d, if first < USERPAGES then frame else 0)
      ensures ok ==> RangeSet(old(mem), mem, d, first, last + 1, frame, perm)
      ensures !ok ==> free == [] && Evolves(r, old(mem), old(free), mem, free, d, 0)
      ensures !ok && first < USERPAGES ==> mem == old(mem) && free == old(free)
      ensures ok <==> |Tables(old(mem), d) + TablesOf(first, last + 1)| <= |old(free)| + |Tables(old(mem), d)|
      ensures ok ==> Opened(old(mem), old(free), mem, free, d, TablesOf(first, last + 1))
      ensures Tables(old(mem), d) <= Tables(mem, d) && |free| + |Tables(mem, d)| == |old(free)| + |Tables(old(mem), d)|
    {
      hide Exclusive, Owns, Slot, Pte, Evolves, Space, Tables, TablesOf;
      ghost var m, fs := mem, free;
      EvolvesSelf(r, mem, free, d);
      RangeNone(m, d, first, frame, perm);
      TablesOfNone(first);
      assert Tables(m, d) + {} == Tables(m, d);
      var a := first;
      while true
        invariant first <= a <= last && Valid() && Space(r, mem, free, d)
        invariant a > first ==> first >= USERPAGES
        invariant a == first ==> mem == m && free == fs
        invariant Evolves(r, m, fs, mem, free, d, 0) && RangeSet(m, mem, d, first, a, frame, perm)
        invariant Opened(m, fs, mem, free, d, TablesOf(first, a))
        decreases last - a
      {
        ghost var m1, fs1 := mem, free;
        var w := Entry(frame + (a - first), perm);
        EntryFacts(frame + (a - first), perm);
        assert Pte(mem, d, a) == Pte(m, d, a);
        ok := MapPage(d, a, w);
        TablesNext(first, a);
        if !ok {
          TablesOfGrow(first, a + 1, last + 1);
          OneTableShort(Tables(m, d), TablesOf(first, a), a / NENTRIES, TablesOf(first, last + 1));
          return;
        }
        OpenedMore(m, fs, m1, fs1, mem, free, d, TablesOf(first, a), {a / NENTRIES});
        RangeMore(m, m1, mem, d, first, a, frame, perm);
        if a >= USERPAGES {
          EvolvesTransitive(r, m, fs, m1, fs1, mem, free, d, 0);
        }
        if a == last {
          return;
        }
        a := a + 1;
      }
    }

    /** One page of deallocuvm: free the frame mapped at v, if any, and clear its entry. */
    method DeallocPage(d: nat, v: nat)
      requires Valid() && Space(r, mem, free, d) && v < USERPAGES && Present(Pde(mem, d, v / NENTRIES))
      modifies this
      ensures Valid() && Shrinks(r, old(mem), old(free), mem, free, d)
      ensures PteSet(old(mem), mem, d, v, Swept(Pte(old(mem), d, v)))
    {
      hide Exclusive, Owns, Slot;
      TableFrame(r, mem, d, v / NENTRIES);
      var t := FrameOf(Pde(mem, d, v / NENTRIES));
      var w := mem[t][v % NENTRIES];
      if Present(w) {
        UserFrame(r, mem, free, d, v);
        ghost var m := mem;
        Kfree(FrameOf(w));
        FreeUser(r, m, old(free), d, v, mem[FrameOf(w)]);
        var page := mem[t][v % NENTRIES := 0];
        ChainElsewhere(r, mem, freelist, free, t, page);
        mem := mem[t := page];
      } else {
        ShrinksSelf(r, mem, free, d);
      }
    }

    /** deallocuvm, sizes in bytes: sweeps exactly the pages its loop visits. */
    method Deallocuvm(d: nat, oldsz: nat, newsz: nat) returns (sz: nat)
      requires Valid() && Space(r, mem, free, d) && oldsz <= USERPAGES * PGSIZE
      modifies this
      ensures Valid() && Shrinks(r, old(mem), old(free), mem, free, d)
      ensures SweptAll(old(mem), mem, d, Pages(newsz), Pages(oldsz))
      ensures sz == if newsz >= oldsz then oldsz else newsz
    {
      hide Exclusive, Owns, Slot, Pte, Space, Visits, SweptTo, SweptAll;
      ghost var m, fs := mem, free;
      ShrinksSelf(r, mem, free, d);
      var a := Pages(newsz);
      ghost var end := Pages(oldsz);
      SweepStart(m, d, a, end);
      if newsz >= oldsz {
        SweepEnd(m, mem, d, a, a, end);
        return oldsz;
      }
      while a * PGSIZE < oldsz
        invariant Valid() && Space(r, mem, free, d)
        invariant Shrinks(r, m, fs, mem, free, d) && SweptTo(m, mem, d, Pages(newsz), a, end)
        decreases end - a
      {
        assert a < end <= USERPAGES && Pde(mem, d, a / NENTRIES) == Pde(m, d, a / NENTRIES);
        ghost var m1, fs1 := mem, free;
        var ok := Walkpgdir(d, a, false);
        if !ok {
          SweepJump(m, mem, d, Pages(newsz), a, end);
          a := a + NENTRIES;
        } else {
          DeallocPage(d, a);
          ShrinksTransitive(r, m, fs, m1, fs1, mem, free, d);
          SweepPage(m, m1, mem, d, Pages(newsz), a, end);
          a := a + 1;
        }
      }
      SweepEnd(m, mem, d, Pages(newsz), a, end);
      return newsz;
    }

    /** freevm: every frame the address space holds goes to the free list, each once. */
    method Freevm(d: nat)
      requires Valid() && Space(r, mem, free, d)
      modifies this
      ensures Valid() && |mem| == |old(mem)|
      ensures forall g: nat :: g in free <==> g in old(free) || Owns(old(mem), d, g)
      ensures forall g: nat :: g < |mem| && g !in old(free) && !Owns(old(mem), d, g) ==> mem[g] == old(mem)[g]
    {
      hide Exclusive, Owns, Slot, Pte, Visits, TableBelow;
      var _ := Deallocuvm(d, USERPAGES * PGSIZE, 0);
      ghost var m, fs := mem, free;
      AllSwept(old(mem), mem, d);
      DirInMemory(r, mem, d);
      DirNotTable(r, mem, free, d);
      OnlyTables(mem, d);
      FreeingStart(m, fs, d);
      for i := 0 to NENTRIES
        invariant Valid() && Freeing(m, fs, mem, free, d, i)
      {
        TableNext(r, m, fs, free, d, i);
        if Present(mem[d][i]) {
          Kfree(FrameOf(mem[d][i]));
        }
      }
      Kfree(d);
    }

    /** d, made of frames that were free, maps the first i rows of kmap and nothing else. */
    ghost predicate KernelRows(kmap: seq<KMap>, i: nat, d: nat, m0: Memory, free0: seq<nat>)
      reads this
    {
      && d != 0 && i <= |kmap| && Valid() && Fresh(r, m0, free0, mem, free, d) && KernelOnly(kmap[..i], mem, d)
      && Tables(mem, d) == KernelTables(kmap[..i]) && |free| + 1 + |Tables(mem, d)| == |free0|
    }

    /** setupkvm's loop body. */
    method SetupRow(kmap: seq<KMap>, i: nat, d: nat, ghost m0: Memory, ghost free0: seq<nat>) returns (ok: bool)
      requires GoodKmap(kmap) && i < |kmap| && KernelRows(kmap, i, d, m0, free0)
      modifies this
      ensures Valid() && (ok ==> KernelRows(kmap, i + 1, d, m0, free0))
      ensures !ok ==> free == [] && |free0| < SetupNeed(kmap) && Untouched(m0, free0, mem)
    {
      hide Exclusive, Owns, Slot, Pte, Evolves, RangeSet, KernelPte, Tables, TablesOf;
      KernelTablesNext(kmap, i);
      KernelPteFree(kmap, i);
      ghost var m1, free1 := mem, free;
      assert GoodRow(kmap[i]);
      assert forall v: nat :: Covers(kmap[i], v) ==> Pte(mem, d, v) == 0;
      ok := Mappages(d, kmap[i].first, kmap[i].last, kmap[i].frame, kmap[i].perm);
      FreshEvolves(r, m0, free0, m1, free1, mem, free, d);
      if ok {
        KernelMore(kmap, i, m1, mem, d);
      }
    }

    /** setupkvm. It fails exactly if the frames it takes are not there; it gives none back, and the free list is then empty. */
    method Setupkvm(kmap: seq<KMap>) returns (d: nat)
      requires Valid() && GoodKmap(kmap)
      modifies this
      ensures Valid() && Untouched(old(mem), old(free), mem)
      ensures d != 0 ==> Fresh(r, old(mem), old(free), mem, free, d) && KernelOnly(kmap, mem, d)
      ensures d == 0 ==> free == []
      ensures d != 0 <==> SetupNeed(kmap) <= |old(free)|
      ensures d != 0 ==> Tables(mem, d) == KernelTables(kmap) && |free| + SetupNeed(kmap) == |old(free)|
    {
      hide Exclusive, Owns, Slot, Pte, Tables, TablesOf, KernelPte, Space;
      ghost var m0, free0 := mem, free;
      if free != [] {
        FreshDir(r, mem, free);
      }
      d := Kalloc();
      if d == 0 {
        return;
      }
      ChainElsewhere(r, mem, freelist, free, d, ZeroPage());
      ZeroTables(mem, d);
      mem := mem[d := ZeroPage()];
      assert kmap[..0] == [];
      for i := 0 to |kmap|
        invariant KernelRows(kmap, i, d, m0, free0)
      {
        var ok := SetupRow(kmap, i, d, m0, free0);
        if !ok {
          return 0;
        }
      }
      assert kmap[..|kmap|] == kmap;
    }

    /** One page of copyuvm: page v of p into the child d, which has the pages below v. */
    method CopyPage(kmap: seq<KMap>, p: nat, d: nat, v: nat, ghost m0: Memory, ghost free0: seq<nat>) returns (ok: bool, ghost lost: nat)
      requires Valid() && GoodKmap(kmap) && v < USERPAGES && GoodRange(r, m0)
      requires Space(r, m0, free0, p) && Present(Pte(m0, p, v))
      requires Fresh(r, m0, free0, mem, free, d) && Child(kmap, m0, p, mem, d, v)
      modifies this
      ensures Valid()
      ensures ok ==> Fresh(r, m0, free0, mem, free, d) && Child(kmap, m0, p, mem, d, v + 1)
      ensures !ok ==> Space(r, mem, free, d) && Untouched(m0, free0, mem)
      ensures !ok ==> forall g: nat :: g in free || Owns(mem, d, g) <==> g in free0 && g != lost
      ensures ok ==> Tables(mem, d) == Tables(old(mem), d) + {v / NENTRIES} && |free| + 1 + |Tables(mem, d)| == |old(free)| + |Tables(old(mem), d)|
      ensures !ok && lost == 0 ==> old(free) == []
      ensures !ok && lost != 0 ==> lost in free0 && |old(free)| == 1 && v / NENTRIES !in Tables(old(mem), d)
    {
      hide Exclusive, Owns, Slot, Pte, Evolves, RangeSet, KernelPte, Tables, TablesOf;
      OtherSpaceKept(r, m0, free0, mem, p);
      UserFrame(r, m0, free0, p, v);
      UserFrame(r, mem, [], p, v);
      var e := Pte(mem, p, v);
      assert e == Pte(m0, p, v);
      lost := 0;
      ghost var m := mem;
      NoneTaken(r, m0, free0, mem, free, d);
      var f := Kalloc();
      if f == 0 {
        return false, lost;
      }
      ghost var free1 := free;
      NotHeld(r, m0, free0, mem, free, d, f);
      var page := mem[FrameOf(e)];
      FrameElsewhere(r, mem, d, f, page);
      TakenFrame(r, m0, free0, mem, free, d, f, page);
      ChainElsewhere(r, mem, freelist, free, f, page);
      mem := mem[f := page];
      ghost var m1 := mem;
      KernelPteFree(kmap, |kmap|);
      assert kmap[..|kmap|] == kmap && Pte(m, d, v) == 0;
      SameTables(r, m, d, f, page);
      OneTable(Tables(m, d), v);
      ok := Mappages(d, v, v, f, FlagsOf(e));
      if ok {
        ChildMore(r, kmap, m0, free0, p, m, free1, m1, mem, free, d, v, f);
      } else {
        lost := f;
      }
    }

    /**
     copyuvm, which panics unless all of the parent's pages below sz are mapped. It succeeds exactly
     if there are frames enough. When it fails in its loop, all the frames it took are back on the
     free list, save the last one if mapping it would have taken a table; when setupkvm fails, the
     free list is empty and stays so.
     */
    method Copyuvm(kmap: seq<KMap>, p: nat, sz: nat) returns (d: nat, ghost lost: nat)
      requires Valid() && GoodKmap(kmap) && Space(r, mem, free, p)
      requires sz <= USERPAGES * PGSIZE && forall v: nat :: v < Pages(sz) ==> Present(Pte(mem, p, v))
      modifies this
      ensures Valid() && Untouched(old(mem), old(free), mem)
      ensures SamePtes(old(mem), mem, p) && Exclusive(r, mem, p) && forall g: nat :: Owns(mem, p, g) <==> Owns(old(mem), p, g)
      ensures d != 0 ==> Fresh(r, old(mem), old(free), mem, free, d) && Child(kmap, old(mem), p, mem, d, Pages(sz))
      ensures d != 0 ==> forall g: nat :: !(Owns(mem, d, g) && Owns(mem, p, g))
      ensures d != 0 <==> CopyNeed(kmap, Pages(sz)) <= |old(free)|
      ensures |old(free)| < SetupNeed(kmap) ==> free == [] && lost == 0
      ensures d == 0 && SetupNeed(kmap) <= |old(free)| ==> Returned(old(free), free, lost) && (lost != 0 ==> lost in old(free))
      ensures SetupNeed(kmap) <= |old(free)| ==> (lost != 0 <==> Strands(KernelTables(kmap), 0, Pages(sz), |old(free)| - SetupNeed(kmap)))
    {
      hide Exclusive, Owns, Slot, Pte, KernelPte, SamePtes, SamePage, Tables, TablesOf, Strands, Need, SetupNeed;
      ghost var m0, free0 := mem, free;
      lost := 0;
      d := Setupkvm(kmap);
      OtherSpaceKept(r, m0, free0, mem, p);
      if d == 0 {
        return;
      }
      ghost var ts, spare := KernelTables(kmap), |free|;
      ChildStart(kmap, m0, p, mem, d);
      NeedNone(ts, 0);
      TablesOfNone(0);
      assert ts + {} == ts;
      var i := 0;
      while i * PGSIZE < sz
        invariant Valid() && i <= Pages(sz) && Fresh(r, m0, free0, mem, free, d) && Child(kmap, m0, p, mem, d, i)
        invariant Tables(mem, d) == ts + TablesOf(0, i) && |free| + Need(ts, 0, i) == spare && lost == 0
        decreases Pages(sz) - i
      {
        NeedNext(ts, 0, i);
        TablesNext(0, i);
        ghost var was := Tables(mem, d);
        var ok;
        ok, lost := CopyPage(kmap, p, d, i, m0, free0);
        if !ok {
          Freevm(d);
          OtherSpaceKept(r, m0, free0, mem, p);
          assert Returned(free0, free, lost);
          if lost == 0 {
            RanOut(ts, 0, Pages(sz), spare, i);
          } else {
            Stranded(ts, 0, Pages(sz), spare, i);
          }
          return 0, lost;
        }
        lost := 0;
        AddedSize(was, i / NENTRIES);
        i := i + 1;
      }
      Enough(ts, 0, Pages(sz), spare);
      OtherSpaceKept(r, m0, free0, mem, p);
      assert forall g: nat :: Owns(mem, p, g) ==> Owns(m0, p, g);
      assert forall g: nat :: Owns(mem, d, g) ==> g in free0;
    }

    /** One page of allocuvm. The result of mappages is only for the contract: the source drops it. */
    method AllocPage(d: nat, v: nat) returns (f: nat, ghost ok: bool)
      requires Valid() && Space(r, mem, free, d) && v < USERPAGES && !Present(Pte(mem, d, v))
      modifies this
      ensures Valid() && Space(r, mem, free, d)
      ensures f == 0 <==> old(free) == []
      ensures f == 0 ==> mem == old(mem) && free == []
      ensures f != 0 && ok ==> Evolves(r, old(mem), old(free), mem, free, d, 0) && PteSet(old(mem), mem, d, v, Pte(mem, d, v)) && ZeroAt(mem, d, v)
      ensures f != 0 && !ok ==> Managed(r, f) && old(free) == [f] && free == [] && mem == old(mem)[f := ZeroPage()]
      ensures f != 0 && !ok ==> v / NENTRIES !in Tables(old(mem), d)
      ensures f != 0 && ok ==> Tables(mem, d) == Tables(old(mem), d) + {v / NENTRIES} && |free| + 1 + |Tables(mem, d)| == |old(free)| + |Tables(old(mem), d)|
    {
      hide Exclusive, Owns, Slot, Pte, Evolves, Tables, TablesOf;
      ok := false;
      ghost var m := mem;
      f := Kalloc();
      if f == 0 {
        return;
      }
      ghost var free1 := free;
      SpaceTake(r, mem, free, d, f, ZeroPage());
      assert f in [f] + free;
      SameTables(r, mem, d, f, ZeroPage());
      ChainElsewhere(r, mem, freelist, free, f, ZeroPage());
      mem := mem[f := ZeroPage()];
      ghost var m1 := mem;
      assert Pte(m1, d, v) == Pte(m, d, v);
      OneTable(Tables(m, d), v);
      var b := Mappages(d, v, v, f, PTE_W + PTE_U);
      ok := b;
      if ok {
        EvolvesTake(r, m, free1, m1, mem, free, d, f);
        KeptFrame(r, m1, free1, mem, free, d, f);
        EntryFacts(f, PTE_W + PTE_U);
        NewPte(m, m1, mem, d, v, f);
      }
    }

    /**
     allocuvm, sizes in bytes. All pages are mapped exactly if there are frames for them and their
     tables; success is reported with the last page missing exactly if one frame is short and the
     last page opens a table; a frame is lost exactly if the last free one went to such a page.
     */
    method Allocuvm(d: nat, oldsz: nat, newsz: nat) returns (sz: nat, ghost lost: nat)
      requires Valid() && Space(r, mem, free, d)
      requires forall v: nat :: Pages(oldsz) <= v < Pages(newsz) && v < USERPAGES ==> !Present(Pte(mem, d, v))
      modifies this
      ensures Valid() && Accounted(r, old(mem), old(free), mem, free, d, lost)
      ensures newsz >= USERPAGES * PGSIZE || newsz < oldsz ==> mem == old(mem) && free == old(free)
      ensures newsz >= USERPAGES * PGSIZE ==> sz == 0
      ensures newsz < USERPAGES * PGSIZE && newsz < oldsz ==> sz == oldsz
      ensures newsz < USERPAGES * PGSIZE && newsz >= oldsz ==> sz == newsz || sz == 0
      ensures oldsz <= newsz < USERPAGES * PGSIZE && sz == newsz ==>
                if lost == 0 then GrownTo(old(mem), mem, d, Pages(oldsz), Pages(newsz))
                else free == [] && Pages(oldsz) < Pages(newsz) && GrownTo(old(mem), mem, d, Pages(oldsz), Pages(newsz) - 1)
      ensures oldsz <= newsz < USERPAGES * PGSIZE && sz != newsz ==>
                forall v: nat :: if Pages(oldsz) <= v < Pages(newsz) then !Present(Pte(mem, d, v)) else Pte(mem, d, v) == Pte(old(mem), d, v)
      ensures oldsz <= newsz < USERPAGES * PGSIZE ==>
                var ts, a, b := Tables(old(mem), d), Pages(oldsz), Pages(newsz);
                && a <= b
                && (sz == newsz && lost == 0 <==> Need(ts, a, b) <= |old(free)|)
                && (sz == newsz && lost != 0 <==> a < b && Need(ts, a, b) == |old(free)| + 1 && Opens(ts, a, b - 1))
                && (lost != 0 <==> Strands(ts, a, b, |old(free)|))
    {
      hide Exclusive, Owns, Slot, Pte, Evolves, Shrinks, Accounted, ZeroAt, SweptAll, Tables, TablesOf, Strands, Need, Opens;
      ghost var m, fs := mem, free;
      ghost var ts := Tables(mem, d);
      lost := 0;
      EvolvesSelf(r, mem, free, d);
      NoneLost(r, m, fs, mem, free, d);
      if newsz >= USERPAGES * PGSIZE {
        return 0, 0;
      }
      if newsz < oldsz {
        return oldsz, 0;
      }
      var a := Pages(oldsz);
      ghost var start, end := a, Pages(newsz);
      ghost var n := a;
      PagesGrow(oldsz, newsz);
      NeedNone(ts, start);
      TablesOfNone(start);
      assert ts + {} == ts;
      while a * PGSIZE < newsz
        invariant start <= n <= a <= end && Valid() && Space(r, mem, free, d) && GrownTo(m, mem, d, start, n)
        invariant Accounted(r, m, fs, mem, free, d, lost)
        invariant lost == 0 ==> n == a && Evolves(r, m, fs, mem, free, d, 0)
        invariant lost != 0 ==> n + 1 == a && free == []
        invariant lost == 0 ==> Tables(mem, d) == ts + TablesOf(start, a) && |free| + Need(ts, start, a) == |fs|
        invariant lost != 0 ==> StrandsAt(ts, start, n, |fs|)
        decreases end - a
      {
        NeedNext(ts, start, a);
        TablesNext(start, a);
        OpensIs(ts, start, a);
        ghost var m1, fs1, ok := mem, free, false;
        assert Pte(mem, d, a) == Pte(m, d, a);
        var f;
        f, ok := AllocPage(d, a);
        if f == 0 {
          var _ := Deallocuvm(d, newsz, oldsz);
          if lost == 0 {
            RanOut(ts, start, end, |fs|, a);
          } else {
            Stranded(ts, start, end, |fs|, n);
          }
          GrowthUndone(m, m1, mem, d, start, n, end);
          AccountedShrinks(r, m, fs, m1, fs1, mem, free, d, lost);
          return 0, lost;
        }
        if ok {
          EvolvesTransitive(r, m, fs, m1, fs1, mem, free, d, 0);
          NoneLost(r, m, fs, mem, free, d);
          GrownMore(r, m, m1, fs1, mem, free, d, start, a);
          AddedSize(Tables(m1, d), a / NENTRIES);
          n := n + 1;
        } else {
          assert fs1 == [f] + [];
          OneLost(r, m, fs, m1, [], d, f, ZeroPage());
          GrownSame(r, m, m1, mem, d, start, n, f);
          lost := f;
        }
        a := a + 1;
      }
      if lost == 0 {
        Enough(ts, start, end, |fs|);
        NeedLess(ts, start, end, |fs|);
      } else {
        Stranded(ts, start, end, |fs|, n);
      }
      sz := newsz;
    }

    // The outcomes that conserve no frames, at one count of frames each.

    /** With 64 free frames setupkvm fails, and keeps them. */
    method SetupShort(data: nat) returns (d: nat)
      requires Valid() && 0x100 < data < 0xE000 && |free| == 64
      modifies this
      ensures Valid() && d == 0 && free == []
    {
      KmapIsGood(data);
      SetupExample(data);
      d := Setupkvm(Kmap(data));
    }

    /** With one, and no table for page 0, allocuvm of that page reports success, and the page is not there. */
    method AllocShort(d: nat) returns (sz: nat, ghost lost: nat)
      requires Valid() && Space(r, mem, free, d) && |free| == 1 && 0 !in Tables(mem, d) && !Present(Pte(mem, d, 0))
      modifies this
      ensures Valid() && sz == PGSIZE && !Present(Pte(mem, d, 0)) && free == [] && lost != 0
    {
      hide Exclusive, Owns, Slot, Pte, Accounted, Tables, Need, Opens, Space, ZeroAt, Strands;
      AllocExample(Tables(mem, d));
      OnePage();
      sz, lost := Allocuvm(d, 0, PGSIZE);
    }

    /** With 66 a copy of a process fails and gives back all but one. */
    method CopyShort(data: nat, p: nat, sz: nat) returns (d: nat, ghost lost: nat)
      requires Valid() && 0x100 < data < 0xE000 && Space(r, mem, free, p) && |free| == 66
      requires 0 < sz <= USERPAGES * PGSIZE && forall v: nat :: v < Pages(sz) ==> Present(Pte(mem, p, v))
      modifies this
      ensures Valid() && d == 0 && lost != 0 && lost in old(free) && Returned(old(free), free, lost)
    {
      hide Exclusive, Owns, Slot, Pte, Need, Opens, Space;
      KmapIsGood(data);
      CopyFails(data, sz);
      d, lost := Copyuvm(Kmap(data), p, sz);
    }
  }

  lemma OnePage()
    ensures Pages(0) == 0 && Pages(PGSIZE) == 1
  {
  }

  lemma CopyFails(data: nat, sz: nat)
    requires 0x100 < data < 0xE000 && 0 < sz <= USERPAGES * PGSIZE
    ensures SetupNeed(Kmap(data)) <= 66 < CopyNeed(Kmap(data), Pages(sz))
    ensures Strands(KernelTables(Kmap(data)), 0, Pages(sz), 66 - SetupNeed(Kmap(data)))
  {
    hide Need, Opens, Kmap, KernelTables;
    var ts := KernelTables(Kmap(data));
    CopyExample(data);
    assert Pages(sz) > 0;
    Stranded(ts, 0, Pages(sz), 66 - SetupNeed(Kmap(data)), 0);
  }
}
