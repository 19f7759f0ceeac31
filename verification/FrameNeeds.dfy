/**
 How many frames setupkvm, allocuvm and copyuvm take (vm.c:128-144, 220-243, 309-337), and so
 with how many free ones each of them succeeds, fails, or leaves a frame stranded.
 */
module FrameNeeds {
  import opened Basics
  import opened PageTables
  import opened CopySpace

  /** With tables ts present, mapping page n after pages a .. n-1 takes a new table. */
  ghost predicate Opens(ts: set<nat>, a: nat, n: nat) {
    n / NENTRIES !in ts + TablesOf(a, n)
  }

  /** Frames for pages a .. b-1 and for the tables that they open. */
  ghost function Need(ts: set<nat>, a: nat, b: nat): nat
    requires a <= b
  {
    (b - a) + |TablesOf(a, b) - ts|
  }

  lemma NeedNext(ts: set<nat>, a: nat, n: nat)
    requires a <= n < ALLPAGES
    ensures Need(ts, a, n + 1) == Need(ts, a, n) + if Opens(ts, a, n) then 2 else 1
  {
    TablesNext(a, n);
    var x := n / NENTRIES;
    if Opens(ts, a, n) {
      assert TablesOf(a, n + 1) - ts == TablesOf(a, n) - ts + {x};
    } else {
      assert TablesOf(a, n + 1) - ts == TablesOf(a, n) - ts;
    }
  }

  lemma NeedNone(ts: set<nat>, a: nat)
    ensures Need(ts, a, a) == 0
  {
    TablesOfNone(a);
    assert {} - ts == {};
  }

  lemma {:induction false} NeedGrows(ts: set<nat>, a: nat, n: nat, k: nat)
    requires a <= n <= k <= ALLPAGES
    ensures Need(ts, a, n) + (k - n) <= Need(ts, a, k)
    decreases k - n
  {
    if n < k {
      NeedGrows(ts, a, n, k - 1);
      NeedNext(ts, a, k - 1);
    }
  }

  /** The frame for page n is the last free one, and mapping it takes a table too. */
  ghost predicate StrandsAt(ts: set<nat>, a: nat, n: nat, free: nat) {
    a <= n && Opens(ts, a, n) && free == Need(ts, a, n) + 1
  }

  ghost predicate Strands(ts: set<nat>, a: nat, b: nat, free: nat) {
    exists n: nat :: n < b && StrandsAt(ts, a, n, free)
  }

  /** All pages mapped: there were frames for them, and none is stranded. */
  lemma Enough(ts: set<nat>, a: nat, b: nat, free: nat)
    requires a <= b <= ALLPAGES && Need(ts, a, b) <= free
    ensures !Strands(ts, a, b, free)
  {
    forall n: nat | n < b
      ensures !StrandsAt(ts, a, n, free)
    {
      if a <= n && Opens(ts, a, n) {
        NeedNext(ts, a, n);
        NeedGrows(ts, a, n + 1, b);
      }
    }
  }

  /** No frame left for page n: too few, and none is stranded. */
  lemma RanOut(ts: set<nat>, a: nat, b: nat, free: nat, n: nat)
    requires a <= n < b <= ALLPAGES && free == Need(ts, a, n)
    ensures free < Need(ts, a, b) && !Strands(ts, a, b, free)
    ensures !(Need(ts, a, b) == free + 1 && Opens(ts, a, b - 1))
  {
    hide Need, Opens;
    NeedGrows(ts, a, n, b);
    NeedGrows(ts, a, n, b - 1);
    NeedNext(ts, a, b - 1);
    forall k: nat | k < b
      ensures !StrandsAt(ts, a, k, free)
    {
      if a <= k && Opens(ts, a, k) {
        NeedNext(ts, a, k);
        if k < n {
          NeedGrows(ts, a, k + 1, n);
        } else {
          NeedGrows(ts, a, n, k);
        }
      }
    }
  }

  /** The frame for page n is stranded: too few, and it is the last page exactly if one more would have been enough. */
  lemma Stranded(ts: set<nat>, a: nat, b: nat, free: nat, n: nat)
    requires n < b <= ALLPAGES && StrandsAt(ts, a, n, free)
    ensures free < Need(ts, a, b) && Strands(ts, a, b, free)
    ensures n == b - 1 <==> free + 1 == Need(ts, a, b) && Opens(ts, a, b - 1)
  {
    hide Need, Opens;
    NeedNext(ts, a, n);
    NeedGrows(ts, a, n + 1, b);
    if n < b - 1 {
      NeedNext(ts, a, b - 1);
      NeedGrows(ts, a, n + 1, b - 1);
    }
  }

  lemma NeedLess(ts: set<nat>, a: nat, b: nat, free: nat)
    requires a <= b && Need(ts, a, b) <= free
    ensures Need(ts, a, b) != free + 1
  {
  }

  lemma OpensIs(ts: set<nat>, a: nat, n: nat)
    ensures Opens(ts, a, n) <==> n / NENTRIES !in ts + TablesOf(a, n)
  {
  }

  lemma AddedSize(s: set<nat>, x: nat)
    ensures |s + {x}| == |s| + if x in s then 0 else 1
  {
    if x in s {
      assert s + {x} == s;
    }
  }

  /** What one page needs of tables. */
  lemma OneTable(ts: set<nat>, v: nat)
    requires v < ALLPAGES
    ensures TablesOf(v, v + 1) == {v / NENTRIES} && |ts + TablesOf(v, v + 1)| == |ts| + if v / NENTRIES in ts then 0 else 1
  {
    TablesNext(v, v);
    TablesOfNone(v);
    AddedSize(ts, v / NENTRIES);
  }

  // ------------------------------------------------------------- setupkvm

  /** The directory entries that the rows of kmap need. */
  ghost function KernelTables(kmap: seq<KMap>): set<nat> {
    if kmap == [] then {}
    else KernelTables(kmap[..|kmap| - 1]) + TablesOf(kmap[|kmap| - 1].first, kmap[|kmap| - 1].last + 1)
  }

  /** The directory and the kernel's page tables. */
  ghost function SetupNeed(kmap: seq<KMap>): nat {
    1 + |KernelTables(kmap)|
  }

  lemma {:induction false} KernelTablesGrow(kmap: seq<KMap>, n: nat)
    requires n <= |kmap|
    ensures KernelTables(kmap[..n]) <= KernelTables(kmap)
    decreases |kmap|
  {
    var k := |kmap| - 1;
    if n <= k {
      assert kmap[..k][..n] == kmap[..n];
      KernelTablesGrow(kmap[..k], n);
    } else {
      assert kmap[..n] == kmap;
    }
  }

  lemma KernelTablesNext(kmap: seq<KMap>, n: nat)
    requires n < |kmap|
    ensures KernelTables(kmap[..n + 1]) == KernelTables(kmap[..n]) + TablesOf(kmap[n].first, kmap[n].last + 1)
    ensures |KernelTables(kmap[..n + 1])| <= |KernelTables(kmap)|
  {
    assert kmap[..n + 1][..n] == kmap[..n];
    KernelTablesGrow(kmap, n + 1);
    SubsetSize(KernelTables(kmap[..n + 1]), KernelTables(kmap));
  }

  // -------------------------------------------------------------- copyuvm

  /** Frames that a copy of n pages takes. */
  ghost function CopyNeed(kmap: seq<KMap>, n: nat): nat {
    SetupNeed(kmap) + Need(KernelTables(kmap), 0, n)
  }

  // ------------------------------------------------------------ witnesses

  lemma {:induction false} IntervalSize(s: set<nat>, a: nat, b: nat)
    requires a <= b && forall x: nat :: x in s <==> a <= x < b
    ensures |s| == b - a
    decreases b - a
  {
    if a == b {
      assert s == {};
    } else {
      IntervalSize(s - {b - 1}, a, b - 1);
    }
  }

  /** The kernel of this machine takes 64 page tables. */
  lemma KernelTakes(data: nat)
    requires 0x100 < data < 0xE000
    ensures SetupNeed(Kmap(data)) == 65
  {
    var kmap := Kmap(data);
    var low, high := TablesOf(USERPAGES, USERPAGES + 0xE000), TablesOf(0xFE000, ALLPAGES);
    KernelTablesAre(data);
    IntervalSize(low, 512, 568);
    IntervalSize(high, 1016, 1024);
    assert low !! high;
    assert |low + high| == |low| + |high|;
  }

  lemma KernelTablesAre(data: nat)
    requires 0x100 < data < 0xE000
    ensures KernelTables(Kmap(data)) == TablesOf(USERPAGES, USERPAGES + 0xE000) + TablesOf(0xFE000, ALLPAGES)
  {
    hide TablesOf;
    var kmap := Kmap(data);
    assert kmap[..4] == kmap && kmap[..0] == [];
    KernelTablesNext(kmap, 0);
    KernelTablesNext(kmap, 1);
    KernelTablesNext(kmap, 2);
    KernelTablesNext(kmap, 3);
    TablesJoin(USERPAGES, USERPAGES + 0x100, USERPAGES + data);
    TablesJoin(USERPAGES, USERPAGES + data, USERPAGES + 0xE000);
  }

  lemma TablesJoin(a: nat, b: nat, c: nat)
    requires a < b < c
    ensures TablesOf(a, b) + TablesOf(b, c) == TablesOf(a, c)
  {
    forall x: nat
      ensures Spans(a, b, x) || Spans(b, c, x) <==> Spans(a, c, x)
    {
      assert b / NENTRIES <= (b - 1) / NENTRIES + 1;
    }
  }

  /** With 64 free frames setupkvm fails, and takes them all. */
  lemma SetupExample(data: nat)
    requires 0x100 < data < 0xE000
    ensures 64 < SetupNeed(Kmap(data))
  {
    KernelTakes(data);
  }

  /** With one free frame and no table for page 0, allocuvm of that page strands the frame and still succeeds. */
  lemma AllocExample(ts: set<nat>)
    requires 0 !in ts
    ensures Need(ts, 0, 1) == 2 && Opens(ts, 0, 0) && StrandsAt(ts, 0, 0, 1)
  {
    TablesOfNone(0);
    NeedNone(ts, 0);
    NeedNext(ts, 0, 0);
  }

  /** With 66 free frames, a copy of a process of one page or more strands the last. */
  lemma CopyExample(data: nat)
    requires 0x100 < data < 0xE000
    ensures var kmap := Kmap(data); SetupNeed(kmap) <= 66 && StrandsAt(KernelTables(kmap), 0, 0, 66 - SetupNeed(kmap))
  {
    KernelTakes(data);
    KernelTablesAre(data);
    AllocExample(KernelTables(Kmap(data)));
  }
}
