/**
 The allocator of umalloc.c (Kernighan and Ritchie, 2nd edition, section 8.7) as values:
 an address-ordered list of free blocks, counted in header-sized units, with `base`, a
 block of size 0 below the heap, at its front.
 */
module FreeList {

  /** n units from unit address a on, the first of which is the header. */
  datatype Block = Block(a: nat, n: nat) {
    function End(): nat {
      a + n
    }
  }

  predicate Inside(b: Block, u: nat) {
    b.a <= u < b.End()
  }

  predicate Overlap(b: Block, c: Block) {
    b.a < c.End() && c.a < b.End()
  }

  /** Some block of the list contains unit u. */
  ghost predicate Covers(bs: seq<Block>, u: nat) {
    exists i :: 0 <= i < |bs| && Inside(bs[i], u)
  }

  function Units(bs: seq<Block>): nat {
    if bs == [] then 0 else Units(bs[..|bs| - 1]) + bs[|bs| - 1].n
  }

  lemma {:induction false} UnitsConcat(bs: seq<Block>, cs: seq<Block>)
    ensures Units(bs + cs) == Units(bs) + Units(cs)
  {
    if cs == [] {
      assert bs + cs == bs;
    } else {
      UnitsConcat(bs, cs[..|cs| - 1]);
      assert (bs + cs)[..|bs + cs| - 1] == bs + cs[..|cs| - 1];
    }
  }

  /** Address order with a gap between any two blocks: disjoint, and no two adjacent. */
  ghost predicate Ordered(fl: seq<Block>, base: nat) {
    && |fl| >= 1 && fl[0] == Block(base, 0)
    && (forall i :: 0 < i < |fl| ==> fl[i].n > 0)
    && Sorted(fl)
  }

  ghost predicate Sorted(bs: seq<Block>) {
    forall i, j :: 0 <= i < j < |bs| ==> bs[i].End() < bs[j].a
  }

  lemma SortedConcat(a: seq<Block>, b: seq<Block>)
    requires Sorted(a) && Sorted(b)
    requires a != [] && b != [] ==> a[|a| - 1].End() < b[0].a
    ensures Sorted(a + b)
  {
    forall i, j | 0 <= i < j < |a + b|
      ensures (a + b)[i].End() < (a + b)[j].a
    {
      if i < |a| <= j {
        assert i < |a| - 1 ==> a[i].End() < a[|a| - 1].a;
        assert j > |a| ==> b[0].End() < b[j - |a|].a;
      }
    }
  }

  /** Where a block at address a belongs: after element t. */
  ghost predicate Fits(fl: seq<Block>, t: nat, b: Block) {
    && t < |fl| && b.n > 0
    && fl[t].End() <= b.a && fl[t].a < b.a
    && (t + 1 < |fl| ==> b.End() <= fl[t + 1].a)
  }

  /** fl with elements w .. s-1 replaced by the one block m. */
  function Splice(fl: seq<Block>, w: nat, s: nat, m: Block): seq<Block>
    requires w <= s <= |fl|
  {
    fl[..w] + [m] + fl[s..]
  }

  predicate TouchesNext(fl: seq<Block>, t: nat, b: Block) {
    t + 1 < |fl| && b.End() == fl[t + 1].a
  }

  predicate TouchesPrev(fl: seq<Block>, t: nat, b: Block) {
    t < |fl| && fl[t].End() == b.a
  }

  /** The block that free leaves behind: b with the neighbours it touches. */
  function Joined(fl: seq<Block>, t: nat, b: Block): Block {
    var n := b.n + (if TouchesNext(fl, t, b) then fl[t + 1].n else 0);
    if TouchesPrev(fl, t, b) then Block(fl[t].a, fl[t].n + n) else Block(b.a, n)
  }

  /** free: b goes after element t, joined with either neighbour that it touches. */
  function Insert(fl: seq<Block>, t: nat, b: Block): seq<Block>
    requires t < |fl|
  {
    Splice(fl, if TouchesPrev(fl, t, b) then t else t + 1, if TouchesNext(fl, t, b) then t + 2 else t + 1, Joined(fl, t, b))
  }

  function Without(bs: seq<Block>, k: nat): seq<Block>
    requires k < |bs|
  {
    bs[..k] + bs[k + 1..]
  }

  /** malloc: n units from the tail of element k, which disappears if nothing is left. */
  function Take(fl: seq<Block>, k: nat, n: nat): seq<Block>
    requires k < |fl| && n <= fl[k].n
  {
    if fl[k].n == n then Without(fl, k) else fl[k := Block(fl[k].a, fl[k].n - n)]
  }

  function Taken(fl: seq<Block>, k: nat, n: nat): Block
    requires k < |fl| && n <= fl[k].n
  {
    Block(fl[k].a + fl[k].n - n, n)
  }

  /** There is exactly one place for a block that overlaps no free block. */
  lemma {:induction false} PlaceExists(fl: seq<Block>, base: nat, b: Block) returns (t: nat)
    requires Ordered(fl, base) && b.n > 0 && b.a > base
    requires forall i :: 0 <= i < |fl| ==> !Overlap(fl[i], b)
    ensures Fits(fl, t, b) && forall u: nat :: Fits(fl, u, b) ==> u == t
  {
    t := |fl| - 1;
    while fl[t].a > b.a
      invariant 0 <= t < |fl|
      invariant t + 1 < |fl| ==> b.End() <= fl[t + 1].a
    {
      t := t - 1;
    }
    forall u: nat | Fits(fl, u, b)
      ensures u == t
    {
      PlaceUnique(fl, base, b, t, u);
    }
  }

  lemma PlaceUnique(fl: seq<Block>, base: nat, b: Block, t: nat, u: nat)
    requires Ordered(fl, base) && Fits(fl, t, b) && Fits(fl, u, b)
    ensures t == u
  {
  }

  lemma SpliceOrdered(fl: seq<Block>, base: nat, w: nat, s: nat, m: Block)
    requires Ordered(fl, base) && 0 < w <= s <= |fl| && m.n > 0
    requires fl[w - 1].End() < m.a && (s < |fl| ==> m.End() < fl[s].a)
    ensures Ordered(Splice(fl, w, s, m), base)
  {
    SortedConcat(fl[..w], [m]);
    SortedConcat(fl[..w] + [m], fl[s..]);
    assert forall i :: 0 <= i < |fl| - s ==> fl[s..][i] == fl[i + s];
  }

  lemma InsertOrdered(fl: seq<Block>, base: nat, t: nat, b: Block)
    requires Ordered(fl, base) && Fits(fl, t, b)
    ensures Ordered(Insert(fl, t, b), base)
  {
    var w := if TouchesPrev(fl, t, b) then t else t + 1;
    var s := if TouchesNext(fl, t, b) then t + 2 else t + 1;
    SpliceOrdered(fl, base, w, s, Joined(fl, t, b));
  }

  lemma SpliceUnits(fl: seq<Block>, w: nat, s: nat, m: Block)
    requires w <= s <= |fl|
    ensures Units(Splice(fl, w, s, m)) + Units(fl[w..s]) == Units(fl) + m.n
  {
    hide Units;
    assert fl == fl[..w] + fl[w..s] + fl[s..];
    UnitsConcat(fl[..w] + fl[w..s], fl[s..]);
    UnitsConcat(fl[..w], fl[w..s]);
    UnitsConcat(fl[..w] + [m], fl[s..]);
    UnitsConcat(fl[..w], [m]);
    UnitsOne(m);
  }

  lemma UnitsOne(b: Block)
    ensures Units([b]) == b.n
  {
    assert [b][..0] == [];
  }

  lemma UnitsTwo(b: Block, c: Block)
    ensures Units([b, c]) == b.n + c.n
  {
    assert [b, c][..1] == [b];
    UnitsOne(b);
  }

  lemma InsertUnits(fl: seq<Block>, t: nat, b: Block)
    requires t < |fl|
    ensures Units(Insert(fl, t, b)) == Units(fl) + b.n
  {
    hide Units;
    var w := if TouchesPrev(fl, t, b) then t else t + 1;
    var s := if TouchesNext(fl, t, b) then t + 2 else t + 1;
    SpliceUnits(fl, w, s, Joined(fl, t, b));
    if w == t && s == t + 2 {
      assert fl[w..s] == [fl[t], fl[t + 1]];
      UnitsTwo(fl[t], fl[t + 1]);
    } else if w == t {
      assert fl[w..s] == [fl[t]];
      UnitsOne(fl[t]);
    } else if s == t + 2 {
      assert fl[w..s] == [fl[t + 1]];
      UnitsOne(fl[t + 1]);
    } else {
      assert fl[w..s] == [];
      UnitsNone();
    }
  }

  lemma UnitsNone()
    ensures Units([]) == 0
  {
  }

  lemma SpliceCovers(fl: seq<Block>, w: nat, s: nat, m: Block, u: nat)
    requires w <= s <= |fl|
    ensures Covers(Splice(fl, w, s, m), u) <==> Covers(fl[..w], u) || Inside(m, u) || Covers(fl[s..], u)
  {
    var r := Splice(fl, w, s, m);
    assert r[w] == m;
    assert forall i :: 0 <= i < w ==> r[i] == fl[..w][i];
    assert forall i :: w < i < |r| ==> r[i] == fl[s..][i - w - 1];
    assert forall i :: 0 <= i < |fl| - s ==> fl[s..][i] == r[i + w + 1];
  }

  lemma CoversSplit(fl: seq<Block>, w: nat, s: nat, u: nat)
    requires w <= s <= |fl|
    ensures Covers(fl, u) <==> Covers(fl[..w], u) || Covers(fl[w..s], u) || Covers(fl[s..], u)
  {
    assert forall i :: 0 <= i < w ==> fl[..w][i] == fl[i];
    assert forall i :: 0 <= i < s - w ==> fl[w..s][i] == fl[i + w];
    assert forall i :: 0 <= i < |fl| - s ==> fl[s..][i] == fl[i + s];
    if i :| 0 <= i < |fl| && Inside(fl[i], u) {
      if w <= i < s {
        assert fl[w..s][i - w] == fl[i];
      } else if s <= i {
        assert fl[s..][i - s] == fl[i];
      }
    }
  }

  /** Freeing adds exactly the units of the block. */
  lemma InsertCovers(fl: seq<Block>, base: nat, t: nat, b: Block, u: nat)
    requires Ordered(fl, base) && Fits(fl, t, b)
    ensures Covers(Insert(fl, t, b), u) <==> Covers(fl, u) || Inside(b, u)
  {
    hide Sorted;
    var w := if TouchesPrev(fl, t, b) then t else t + 1;
    var s := if TouchesNext(fl, t, b) then t + 2 else t + 1;
    var m := Joined(fl, t, b);
    SpliceCovers(fl, w, s, m, u);
    CoversSplit(fl, w, s, u);
    var mid := fl[w..s];
    assert forall i :: 0 <= i < |mid| ==> mid[i] == fl[w + i];
    if w == t {
      assert mid[0] == fl[t];
    }
    if s == t + 2 {
      assert mid[t + 1 - w] == fl[t + 1];
    }
    assert Covers(mid, u) <==> (w == t && Inside(fl[t], u)) || (s == t + 2 && Inside(fl[t + 1], u));
  }

  lemma TakeOrdered(fl: seq<Block>, base: nat, k: nat, n: nat)
    requires Ordered(fl, base) && 0 < k < |fl| && 0 < n <= fl[k].n
    ensures Ordered(Take(fl, k, n), base)
  {
  }

  lemma TakeUnits(fl: seq<Block>, k: nat, n: nat)
    requires k < |fl| && n <= fl[k].n
    ensures Units(Take(fl, k, n)) + n == Units(fl)
  {
    hide Units;
    var m := Block(fl[k].a, fl[k].n - n);
    SpliceUnits(fl, k, k + 1, m);
    assert fl[k..k + 1] == [fl[k]];
    UnitsOne(fl[k]);
    assert fl[k := m] == Splice(fl, k, k + 1, m);
    UnitsConcat(fl[..k] + [m], fl[k + 1..]);
    UnitsConcat(fl[..k], [m]);
    UnitsOne(m);
    UnitsConcat(fl[..k], fl[k + 1..]);
  }

  /** Where block i of the list is in what taking n units of block k leaves. */
  function Kept(fl: seq<Block>, k: nat, n: nat, i: nat): nat
    requires k < |fl|
  {
    if fl[k].n == n && i > k then i - 1 else i
  }

  lemma TakeAt(fl: seq<Block>, k: nat, n: nat, i: nat)
    requires k < |fl| && n <= fl[k].n && i < |fl| && (i != k || n < fl[k].n)
    ensures var r, j := Take(fl, k, n), Kept(fl, k, n, i);
            j < |r| && r[j] == if i == k then Block(fl[k].a, fl[k].n - n) else fl[i]
  {
  }

  /** And nothing else is there. */
  lemma TakeFrom(fl: seq<Block>, k: nat, n: nat, j: nat) returns (i: nat)
    requires k < |fl| && 0 < n <= fl[k].n && j < |Take(fl, k, n)|
    ensures i < |fl| && (i != k || n < fl[k].n)
    ensures Take(fl, k, n)[j] == if i == k then Block(fl[k].a, fl[k].n - n) else fl[i]
  {
    i := if fl[k].n == n && j >= k then j + 1 else j;
  }

  /** Allocating splits a free block into the block handed out and what stays free. */
  lemma TakeCovers(fl: seq<Block>, base: nat, k: nat, n: nat, u: nat)
    requires Ordered(fl, base) && 0 < k < |fl| && 0 < n <= fl[k].n
    ensures Covers(fl, u) <==> Covers(Take(fl, k, n), u) || Inside(Taken(fl, k, n), u)
    ensures !(Covers(Take(fl, k, n), u) && Inside(Taken(fl, k, n), u))
  {
    hide Take;
    var r := Take(fl, k, n);
    if Covers(r, u) {
      var j: nat :| j < |r| && Inside(r[j], u);
      var i := TakeFrom(fl, k, n, j);
      assert Inside(fl[i], u);
      assert i < k ==> fl[i].End() < fl[k].a;
      assert k < i ==> fl[k].End() < fl[i].a;
    } else if Covers(fl, u) {
      var i: nat :| i < |fl| && Inside(fl[i], u);
      if i != k || n < fl[k].n {
        TakeAt(fl, k, n, i);
      }
    }
  }
}
