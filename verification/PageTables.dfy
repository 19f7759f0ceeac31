/**
 x86 two-level page tables as vm.c uses them (32-bit paging, section 4.3 of volume 3A of
 the Intel SDM), over physical memory as a sequence of page frames of 1024 words.
 An address space is named by the frame of its page directory.
 */
module PageTables {
  import Blocks

  const NENTRIES: nat := 1024
  const PGSIZE: nat := 4096
  const USERPAGES: nat := 0x80000  // KERNBASE / PGSIZE
  const ALLPAGES: nat := 0x100000

  type Word = Blocks.Word
  type Page = p: seq<Word> | |p| == NENTRIES witness seq(NENTRIES, _ => 0)
  type Memory = seq<Page>

  const PTE_P: nat := 1
  const PTE_W: nat := 2
  const PTE_U: nat := 4

  predicate Present(w: Word) {
    w % 2 == 1
  }

  function FrameOf(w: Word): nat {
    w / PGSIZE
  }

  function FlagsOf(w: Word): nat {
    w % PGSIZE
  }

  function ZeroPage(): Page {
    seq(NENTRIES, _ => 0)
  }

  /** Directory entry x. */
  function Pde(m: Memory, d: nat, x: nat): Word {
    if d < |m| && x < NENTRIES then m[d][x] else 0
  }

  /** The table entry for virtual page v, 0 if there is no table. */
  function Pte(m: Memory, d: nat, v: nat): Word {
    var e := Pde(m, d, v / NENTRIES);
    if Present(e) && FrameOf(e) < |m| then m[FrameOf(e)][v % NENTRIES] else 0
  }

  /**
   The frames an address space holds, by slot: 0 is the directory, 1 .. 1024 the page tables,
   1025 on the frames mapped at user pages; 0 means none. Frames mapped at kernel pages are shared.
   */
  function Slot(m: Memory, d: nat, s: nat): nat {
    if s == 0 then d
    else if s <= NENTRIES then (var e := Pde(m, d, s - 1); if Present(e) then FrameOf(e) else 0)
    else if s - NENTRIES - 1 < USERPAGES then (var e := Pte(m, d, s - NENTRIES - 1); if Present(e) then FrameOf(e) else 0)
    else 0
  }

  function UserSlot(v: nat): nat {
    NENTRIES + 1 + v
  }

  ghost predicate Owns(m: Memory, d: nat, f: nat) {
    f != 0 && exists s: nat :: Slot(m, d, s) == f
  }

  /** Frames that the allocator manages: from the end of the kernel to PHYSTOP. */
  datatype Range = Range(lo: nat, hi: nat)

  predicate Managed(r: Range, f: nat) {
    r.lo <= f < r.hi
  }

  ghost predicate GoodRange(r: Range, m: Memory) {
    0 < r.lo <= r.hi <= |m| && r.hi <= ALLPAGES
  }

  /** No present entry names frame 0. */
  ghost predicate NoNull(m: Memory, d: nat) {
    && (forall x: nat :: Present(Pde(m, d, x)) ==> FrameOf(Pde(m, d, x)) != 0)
    && (forall v: nat :: v < USERPAGES && Present(Pte(m, d, v)) ==> FrameOf(Pte(m, d, v)) != 0)
  }

  /** Every frame held is a managed one, held once. */
  ghost predicate Exclusive(r: Range, m: Memory, d: nat) {
    && d != 0 && NoNull(m, d)
    && (forall s: nat :: Slot(m, d, s) != 0 ==> Managed(r, Slot(m, d, s)))
    && (forall s: nat, t: nat :: Slot(m, d, s) != 0 && Slot(m, d, s) == Slot(m, d, t) ==> s == t)
  }

  ghost predicate SameSlots(m: Memory, m': Memory, d: nat) {
    forall s: nat :: Slot(m', d, s) == Slot(m, d, s)
  }

  ghost predicate SlotsWith(m: Memory, m': Memory, d: nat, s: nat, f: nat) {
    forall t: nat :: Slot(m', d, t) == if t == s then f else Slot(m, d, t)
  }

  ghost predicate SamePtes(m: Memory, m': Memory, d: nat) {
    forall v: nat :: Pte(m', d, v) == Pte(m, d, v)
  }

  // --------------------------------------------------- page tables by number

  /** The directory entries that are present. */
  ghost function Tables(m: Memory, d: nat): set<nat> {
    set x: nat | x < NENTRIES && Present(Pde(m, d, x))
  }

  /** The directory entries for pages a .. b-1. */
  ghost function TablesOf(a: nat, b: nat): set<nat> {
    set x: nat | x < NENTRIES && Spans(a, b, x)
  }

  /** Some page of a .. b-1 belongs to directory entry x. */
  predicate Spans(a: nat, b: nat, x: nat) {
    a < b && a / NENTRIES <= x <= (b - 1) / NENTRIES
  }

  lemma TablesOfGrow(a: nat, b: nat, c: nat)
    requires b <= c
    ensures TablesOf(a, b) <= TablesOf(a, c)
  {
  }

  lemma TablesNext(a: nat, v: nat)
    requires a <= v < ALLPAGES
    ensures TablesOf(a, v + 1) == TablesOf(a, v) + {v / NENTRIES}
    ensures v > a && v % NENTRIES != 0 ==> v / NENTRIES in TablesOf(a, v)
    ensures v == a || v % NENTRIES == 0 ==> v / NENTRIES !in TablesOf(a, v)
  {
    if v > a {
      assert (v - 1) / NENTRIES == if v % NENTRIES == 0 then v / NENTRIES - 1 else v / NENTRIES;
    }
  }

  lemma TablesOfNone(a: nat)
    ensures TablesOf(a, a) == {}
  {
  }

  /** Changing a frame that the address space does not hold changes none of its entries. */
  lemma FrameElsewhere(r: Range, m: Memory, d: nat, f: nat, p: Page)
    requires GoodRange(r, m) && Exclusive(r, m, d) && f < |m| && !Owns(m, d, f) && Managed(r, f)
    ensures var m' := m[f := p];
            SameSlots(m, m', d) && SamePtes(m, m', d) && Exclusive(r, m', d)
    ensures forall g: nat :: Owns(m[f := p], d, g) <==> Owns(m, d, g)
  {
    var m' := m[f := p];
    assert Slot(m, d, 0) == d;
    forall x: nat
      ensures Pde(m', d, x) == Pde(m, d, x)
    {
    }
    forall v: nat
      ensures Pte(m', d, v) == Pte(m, d, v)
    {
      var e := Pde(m, d, v / NENTRIES);
      if Present(e) {
        assert v / NENTRIES < NENTRIES && Slot(m, d, v / NENTRIES + 1) == FrameOf(e);
      }
    }
    assert SameSlots(m, m', d);
    SameSlotsOwns(m, m', d);
  }

  lemma SameSlotsOwns(m: Memory, m': Memory, d: nat)
    requires SameSlots(m, m', d)
    ensures forall g: nat :: Owns(m', d, g) <==> Owns(m, d, g)
  {
    forall g: nat
      ensures Owns(m', d, g) <==> Owns(m, d, g)
    {
      if Owns(m, d, g) {
        var s: nat :| Slot(m, d, s) == g;
        assert Slot(m', d, s) == g;
      }
      if Owns(m', d, g) {
        var s: nat :| Slot(m', d, s) == g;
        assert Slot(m, d, s) == g;
      }
    }
  }

  lemma SlotsWithOwns(r: Range, m: Memory, m': Memory, d: nat, s: nat, f: nat)
    requires Exclusive(r, m, d) && SlotsWith(m, m', d, s, f) && s != 0 && NoNull(m', d)
    requires Slot(m, d, s) == 0 && Managed(r, f) && f != 0 && !Owns(m, d, f)
    ensures Exclusive(r, m', d)
    ensures forall g: nat :: Owns(m', d, g) <==> Owns(m, d, g) || g == f
  {
    assert forall t: nat :: Slot(m, d, t) != f;
    assert Slot(m', d, s) == f;
    forall g: nat
      ensures Owns(m', d, g) <==> Owns(m, d, g) || g == f
    {
      if Owns(m, d, g) {
        var t: nat :| Slot(m, d, t) == g;
        assert Slot(m', d, t) == g;
      }
      if Owns(m', d, g) {
        var t: nat :| Slot(m', d, t) == g;
        assert Slot(m, d, t) == g || g == f;
      }
    }
  }

  // --------------------------------------------------------------- changes

  /** A zeroed page-table page entered in the directory, as walkpgdir does with alloc set. */
  function AddTable(m: Memory, d: nat, x: nat, f: nat): Memory
    requires d < |m| && f < |m| && f < ALLPAGES && x < NENTRIES && d != f
  {
    m[f := ZeroPage()][d := m[d][x := f * PGSIZE + (PTE_P + PTE_W + PTE_U)]]
  }

  lemma TableEntry(f: nat)
    requires f < ALLPAGES
    ensures var w := f * PGSIZE + (PTE_P + PTE_W + PTE_U);
            w < 0x1_0000_0000 && Present(w) && FrameOf(w) == f
  {
  }

  lemma AddTableKeeps(r: Range, m: Memory, d: nat, x: nat, f: nat)
    requires GoodRange(r, m) && Exclusive(r, m, d) && x < NENTRIES && !Present(Pde(m, d, x))
    requires Managed(r, f) && !Owns(m, d, f)
    ensures d < |m| && d != f
    ensures var m' := AddTable(m, d, x, f);
            && SlotsWith(m, m', d, x + 1, f) && SamePtes(m, m', d) && Exclusive(r, m', d)
            && Present(Pde(m', d, x)) && forall g: nat :: Owns(m', d, g) <==> Owns(m, d, g) || g == f
  {
    assert Slot(m, d, 0) == d;
    var m' := AddTable(m, d, x, f);
    TableEntry(f);
    forall y: nat
      ensures Pde(m', d, y) == if y == x then f * PGSIZE + (PTE_P + PTE_W + PTE_U) else Pde(m, d, y)
    {
    }
    forall v: nat
      ensures Pte(m', d, v) == Pte(m, d, v)
    {
      var e := Pde(m, d, v / NENTRIES);
      if Present(e) {
        assert Slot(m, d, v / NENTRIES + 1) == FrameOf(e);
      }
    }
    forall t: nat
      ensures Slot(m', d, t) == if t == x + 1 then f else Slot(m, d, t)
    {
    }
    assert Slot(m, d, x + 1) == 0;
    SlotsWithOwns(r, m, m', d, x + 1, f);
  }

  /** Table entry v set to w. */
  function SetPte(m: Memory, d: nat, v: nat, w: Word): Memory
    requires Present(Pde(m, d, v / NENTRIES)) && FrameOf(Pde(m, d, v / NENTRIES)) < |m|
  {
    var t := FrameOf(Pde(m, d, v / NENTRIES));
    m[t := m[t][v % NENTRIES := w]]
  }

  lemma SetPteEntries(r: Range, m: Memory, d: nat, v: nat, w: Word)
    requires GoodRange(r, m) && Exclusive(r, m, d) && Present(Pde(m, d, v / NENTRIES))
    ensures FrameOf(Pde(m, d, v / NENTRIES)) < |m|
    ensures var m' := SetPte(m, d, v, w);
            && (forall x: nat :: Pde(m', d, x) == Pde(m, d, x))
            && (forall u: nat :: Pte(m', d, u) == if u == v then w else Pte(m, d, u))
  {
    var x := v / NENTRIES;
    var t := FrameOf(Pde(m, d, x));
    assert x < NENTRIES;
    assert Slot(m, d, 0) == d && Slot(m, d, x + 1) == t;
    TableFrame(r, m, d, x);
    var m' := SetPte(m, d, v, w);
    forall u: nat
      ensures Pte(m', d, u) == if u == v then w else Pte(m, d, u)
    {
      var y := u / NENTRIES;
      if Present(Pde(m, d, y)) {
        TableFrame(r, m, d, y);
        assert Slot(m, d, y + 1) == FrameOf(Pde(m, d, y));
        assert u == y * NENTRIES + u % NENTRIES && v == x * NENTRIES + v % NENTRIES;
      }
    }
  }

  /** A present directory entry names a managed frame other than the directory. */
  lemma TableFrame(r: Range, m: Memory, d: nat, x: nat)
    requires GoodRange(r, m) && Exclusive(r, m, d) && Present(Pde(m, d, x))
    ensures Managed(r, FrameOf(Pde(m, d, x))) && FrameOf(Pde(m, d, x)) != d
  {
    assert Slot(m, d, x + 1) == FrameOf(Pde(m, d, x));
    assert Slot(m, d, 0) == d;
  }

  /** Mapping a frame that is not held at an unmapped user page. */
  lemma MapUser(r: Range, m: Memory, d: nat, v: nat, w: Word)
    requires GoodRange(r, m) && Exclusive(r, m, d) && v < USERPAGES && Present(Pde(m, d, v / NENTRIES))
    requires !Present(Pte(m, d, v)) && Present(w) && Managed(r, FrameOf(w)) && !Owns(m, d, FrameOf(w))
    ensures FrameOf(Pde(m, d, v / NENTRIES)) < |m|
    ensures var m' := SetPte(m, d, v, w);
            && Exclusive(r, m', d) && SlotsWith(m, m', d, UserSlot(v), FrameOf(w))
            && forall g: nat :: Owns(m', d, g) <==> Owns(m, d, g) || g == FrameOf(w)
  {
    SetPteEntries(r, m, d, v, w);
    var m' := SetPte(m, d, v, w);
    forall t: nat
      ensures Slot(m', d, t) == if t == UserSlot(v) then FrameOf(w) else Slot(m, d, t)
    {
    }
    SlotsWithOwns(r, m, m', d, UserSlot(v), FrameOf(w));
  }

  /** Mapping at a kernel page changes no holding. */
  lemma MapKernel(r: Range, m: Memory, d: nat, v: nat, w: Word)
    requires GoodRange(r, m) && Exclusive(r, m, d) && v >= USERPAGES && Present(Pde(m, d, v / NENTRIES))
    ensures FrameOf(Pde(m, d, v / NENTRIES)) < |m|
    ensures var m' := SetPte(m, d, v, w);
            && Exclusive(r, m', d) && SameSlots(m, m', d)
            && forall g: nat :: Owns(m', d, g) <==> Owns(m, d, g)
  {
    SetPteEntries(r, m, d, v, w);
    var m' := SetPte(m, d, v, w);
    assert SameSlots(m, m', d);
    SameSlotsOwns(m, m', d);
  }

  /** Unmapping a user page gives up exactly its frame. */
  lemma UnmapUser(r: Range, m: Memory, d: nat, v: nat)
    requires GoodRange(r, m) && Exclusive(r, m, d) && v < USERPAGES && Present(Pte(m, d, v))
    ensures Present(Pde(m, d, v / NENTRIES)) && FrameOf(Pde(m, d, v / NENTRIES)) < |m|
    ensures var m' := SetPte(m, d, v, 0);
            && Exclusive(r, m', d) && SlotsWith(m, m', d, UserSlot(v), 0)
            && forall g: nat :: Owns(m', d, g) <==> Owns(m, d, g) && g != FrameOf(Pte(m, d, v))
  {
    SetPteEntries(r, m, d, v, 0);
    var m' := SetPte(m, d, v, 0);
    var f := FrameOf(Pte(m, d, v));
    assert Slot(m, d, UserSlot(v)) == f;
    forall t: nat
      ensures Slot(m', d, t) == if t == UserSlot(v) then 0 else Slot(m, d, t)
    {
    }
    forall g: nat
      ensures Owns(m', d, g) <==> Owns(m, d, g) && g != f
    {
      if Owns(m', d, g) {
        var t: nat :| Slot(m', d, t) == g;
        assert Slot(m, d, t) == g;
      }
      if Owns(m, d, g) && g != f {
        var t: nat :| Slot(m, d, t) == g;
        assert Slot(m', d, t) == g;
      }
    }
  }
}
