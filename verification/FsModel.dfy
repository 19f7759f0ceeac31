/**
 The file system below directories (fs.c, fs.h) as values: bitmap, inode table and data
 blocks. A slot is a place that can name a block: slots 0..11 of an inode are its direct
 addresses, slot 12 its indirect block, slots 13..140 the entries of that block.
 */
module FsModel {
  import opened Blocks

  const NDIRECT: nat := 12
  const NINDIRECT: nat := 128
  const MAXFILE: nat := NDIRECT + NINDIRECT
  const SLOTS: nat := MAXFILE + 1

  type Short = x: int | 0 <= x < 65536
  type Addrs = s: seq<Word> | |s| == NDIRECT + 1 witness seq(NDIRECT + 1, _ => 0)

  datatype Dinode = Dinode(typ: Short, major: Short, minor: Short, nlink: Short, size: Word, addrs: Addrs)

  /** `meta` blocks come before the data blocks; blocks[b] is meaningful for b >= meta. */
  datatype Fs = Fs(meta: nat, bits: seq<bool>, inodes: seq<Dinode>, blocks: seq<Block>)

  predicate IsData(f: Fs, b: nat) {
    f.meta <= b < |f.blocks|
  }

  /** The block number in slot s of inode i; 0 means none. */
  function Slot(f: Fs, i: nat, s: nat): nat {
    if i >= |f.inodes| || s >= SLOTS then 0
    else if s <= NDIRECT then f.inodes[i].addrs[s]
    else if IsData(f, f.inodes[i].addrs[NDIRECT]) then WordAt(f.blocks[f.inodes[i].addrs[NDIRECT]], s - NDIRECT - 1)
    else 0
  }

  /** The slot that names the bn-th block of a file. */
  function SlotOf(bn: nat): nat {
    if bn < NDIRECT then bn else bn + 1
  }

  /** Byte p of file i, whatever its size; unmapped blocks read as zero. */
  function Raw(f: Fs, i: nat, p: nat): Byte {
    var a := Slot(f, i, SlotOf(p / BSIZE));
    if IsData(f, a) then f.blocks[a][p % BSIZE] else 0
  }

  /** The bytes of file i. */
  function Contents(f: Fs, i: nat): seq<Byte>
    requires i < |f.inodes|
  {
    seq(f.inodes[i].size, p requires 0 <= p < f.inodes[i].size => Raw(f, i, p))
  }

  ghost predicate Owns(f: Fs, b: nat) {
    exists i: nat, s: nat :: Slot(f, i, s) == b && b != 0
  }

  ghost predicate Shape(f: Fs) {
    && |f.bits| == |f.blocks| <= TWO32
    && 1 <= f.meta <= |f.blocks|
  }

  /** Slots name data blocks, and no block is named twice. */
  ghost predicate Exclusive(f: Fs) {
    && (forall i: nat, s: nat :: Slot(f, i, s) != 0 ==> IsData(f, Slot(f, i, s)))
    && (forall i: nat, s: nat, j: nat, t: nat ::
          Slot(f, i, s) != 0 && Slot(f, i, s) == Slot(f, j, t) ==> i == j && s == t)
  }

  /** The bitmap marks the metadata blocks and the blocks in use. */
  ghost predicate Tracks(f: Fs, live: iset<nat>) {
    forall b: nat :: b < |f.bits| ==> (f.bits[b] <==> b < f.meta || b in live)
  }

  ghost function Owned(f: Fs): iset<nat> {
    iset b: nat | Owns(f, b)
  }

  /** Block ownership: a bit is set iff the block is metadata or named by exactly one slot of one inode. */
  ghost predicate Good(f: Fs) {
    Shape(f) && Exclusive(f) && Tracks(f, Owned(f))
  }

  /** The slots of g are those of f, except that slot s of inode i names b. */
  ghost predicate SlotsWith(f: Fs, g: Fs, i: nat, s: nat, b: nat) {
    forall j: nat, t: nat :: Slot(g, j, t) == if j == i && t == s then b else Slot(f, j, t)
  }

  ghost predicate SameSlots(f: Fs, g: Fs) {
    forall j: nat, t: nat :: Slot(g, j, t) == Slot(f, j, t)
  }

  ghost predicate SameRaw(f: Fs, g: Fs) {
    forall j: nat, p: nat :: Raw(g, j, p) == Raw(f, j, p)
  }

  // ------------------------------------------------------------ allocation

  function Allocate(f: Fs, b: nat): Fs
    requires b < |f.bits| && b < |f.blocks|
  {
    f.(bits := f.bits[b := true], blocks := f.blocks[b := ZeroBlock()])
  }

  lemma AllocateKeeps(f: Fs, b: nat)
    requires Shape(f) && Exclusive(f) && b < |f.bits| && !Owns(f, b) && b >= f.meta
    ensures var g := Allocate(f, b);
            Shape(g) && SameSlots(f, g) && SameRaw(f, g) && Exclusive(g)
  {
    var g := Allocate(f, b);
    forall j: nat, t: nat
      ensures Slot(g, j, t) == Slot(f, j, t)
    {
      assert Slot(f, j, NDIRECT) != b;
    }
    forall j: nat, p: nat
      ensures Raw(g, j, p) == Raw(f, j, p)
    {
      assert Slot(f, j, SlotOf(p / BSIZE)) != b;
    }
    SameSlotsExclusive(f, g);
  }

  lemma SameSlotsExclusive(f: Fs, g: Fs)
    requires Exclusive(f) && SameSlots(f, g) && g.meta == f.meta && |g.blocks| == |f.blocks|
    ensures Exclusive(g) && Owned(g) == Owned(f)
  {
    forall b: nat
      ensures Owns(g, b) <==> Owns(f, b)
    {
      if Owns(g, b) {
        var i: nat, s: nat :| Slot(g, i, s) == b && b != 0;
        assert Slot(f, i, s) == b;
      }
      if Owns(f, b) {
        var i: nat, s: nat :| Slot(f, i, s) == b && b != 0;
        assert Slot(g, i, s) == b;
      }
    }
  }

  lemma SlotsWithExclusive(f: Fs, g: Fs, i: nat, s: nat, b: nat)
    requires Exclusive(f) && SlotsWith(f, g, i, s, b) && g.meta == f.meta && |g.blocks| == |f.blocks|
    requires Slot(f, i, s) == 0 && b != 0 && IsData(f, b) && !Owns(f, b)
    ensures Exclusive(g) && Owned(g) == Owned(f) + iset{b}
  {
    assert forall j: nat, t: nat :: Slot(f, j, t) != b;
    forall c: nat
      ensures Owns(g, c) <==> Owns(f, c) || c == b
    {
      if Owns(g, c) {
        var j: nat, t: nat :| Slot(g, j, t) == c && c != 0;
        assert Slot(f, j, t) == c || c == b;
      }
      if Owns(f, c) {
        var j: nat, t: nat :| Slot(f, j, t) == c && c != 0;
        assert Slot(g, j, t) == c;
      }
      assert Slot(g, i, s) == b;
    }
  }

  /** Inode i with address slot s (direct or indirect block) set to b. */
  function SetAddr(f: Fs, i: nat, s: nat, b: Word): Fs
    requires i < |f.inodes| && s <= NDIRECT
  {
    f.(inodes := f.inodes[i := f.inodes[i].(addrs := f.inodes[i].addrs[s := b])])
  }

  lemma ZeroWord(e: nat)
    requires e < WORDS
    ensures WordAt(ZeroBlock(), e) == 0
  {
  }

  /** Giving a zeroed block to an empty address slot changes no file's bytes. */
  lemma SetAddrKeeps(f: Fs, i: nat, s: nat, b: Word)
    requires Shape(f) && Exclusive(f) && i < |f.inodes| && s <= NDIRECT && Slot(f, i, s) == 0
    requires IsData(f, b) && !Owns(f, b) && f.blocks[b] == ZeroBlock()
    ensures var g := SetAddr(f, i, s, b);
            Shape(g) && SlotsWith(f, g, i, s, b) && SameRaw(f, g) && Exclusive(g) && Owned(g) == Owned(f) + iset{b}
  {
    var g := SetAddr(f, i, s, b);
    forall j: nat, t: nat
      ensures Slot(g, j, t) == if j == i && t == s then b else Slot(f, j, t)
    {
      if j == i && s == NDIRECT < t < SLOTS {
        ZeroWord(t - NDIRECT - 1);
      }
    }
    SlotsWithExclusive(f, g, i, s, b);
  }

  /** Entry e of inode i's indirect block set to b. */
  function SetEntry(f: Fs, i: nat, e: nat, b: Word): Fs
    requires i < |f.inodes| && e < NINDIRECT && IsData(f, f.inodes[i].addrs[NDIRECT])
  {
    var r := f.inodes[i].addrs[NDIRECT];
    f.(blocks := f.blocks[r := PutWord(f.blocks[r], e, b)])
  }

  lemma SetEntrySlots(f: Fs, i: nat, e: nat, b: Word)
    requires Exclusive(f) && i < |f.inodes| && e < NINDIRECT && IsData(f, f.inodes[i].addrs[NDIRECT]) && f.meta >= 1
    ensures SlotsWith(f, SetEntry(f, i, e, b), i, NDIRECT + 1 + e, b)
  {
    var g, r := SetEntry(f, i, e, b), f.inodes[i].addrs[NDIRECT];
    assert Slot(f, i, NDIRECT) == r;
    forall j: nat, t: nat
      ensures Slot(g, j, t) == if j == i && t == NDIRECT + 1 + e then b else Slot(f, j, t)
    {
      assert Slot(f, j, NDIRECT) == r ==> j == i;
      if j == i && NDIRECT < t < SLOTS {
        WordAtPutWord(f.blocks[r], e, b, t - NDIRECT - 1);
      }
    }
  }

  lemma SetEntryKeeps(f: Fs, i: nat, e: nat, b: Word)
    requires Shape(f) && Exclusive(f) && i < |f.inodes| && e < NINDIRECT && IsData(f, f.inodes[i].addrs[NDIRECT])
    requires Slot(f, i, NDIRECT + 1 + e) == 0
    requires IsData(f, b) && !Owns(f, b) && f.blocks[b] == ZeroBlock()
    ensures var g := SetEntry(f, i, e, b);
            && Shape(g) && SlotsWith(f, g, i, NDIRECT + 1 + e, b) && SameRaw(f, g)
            && Exclusive(g) && Owned(g) == Owned(f) + iset{b}
  {
    var g, r := SetEntry(f, i, e, b), f.inodes[i].addrs[NDIRECT];
    assert Slot(f, i, NDIRECT) == r;
    assert b != r by {
      assert Owns(f, r);
    }
    SetEntrySlots(f, i, e, b);
    SlotsWithExclusive(f, g, i, NDIRECT + 1 + e, b);
    hide WordAt, Tracks;
    forall j: nat, p: nat
      ensures Raw(g, j, p) == Raw(f, j, p)
    {
      var t := SlotOf(p / BSIZE);
      assert Slot(f, j, t) != r;
      assert Slot(g, j, t) == if j == i && t == NDIRECT + 1 + e then b else Slot(f, j, t);
    }
  }

  /** g is f with blocks added to file i: no slot in use and no byte of any file has changed. */
  ghost predicate Extends(f: Fs, g: Fs, i: nat) {
    && i < |f.inodes| == |g.inodes| && g.meta == f.meta && |g.blocks| == |f.blocks|
    && g.inodes == f.inodes[i := f.inodes[i].(addrs := g.inodes[i].addrs)]
    && SameRaw(f, g)
    && forall j: nat, t: nat :: Slot(g, j, t) == Slot(f, j, t) || (j == i && Slot(f, j, t) == 0)
  }

  lemma ExtendsTransitive(f: Fs, g: Fs, h: Fs, i: nat)
    requires Extends(f, g, i) && Extends(g, h, i)
    ensures Extends(f, h, i)
  {
    forall j: nat, p: nat
      ensures Raw(h, j, p) == Raw(f, j, p)
    {
      assert Raw(g, j, p) == Raw(f, j, p);
    }
    forall j: nat, t: nat
      ensures Slot(h, j, t) == Slot(f, j, t) || (j == i && Slot(f, j, t) == 0)
    {
      assert Slot(g, j, t) == Slot(f, j, t) || (j == i && Slot(f, j, t) == 0);
    }
  }

  // ---------------------------------------------------------- free blocks

  /** Clear bits. */
  function Clear(bits: seq<bool>): nat {
    if bits == [] then 0 else Clear(bits[..|bits| - 1]) + if bits[|bits| - 1] then 0 else 1
  }

  /** Free blocks. */
  function Free(f: Fs): nat {
    Clear(f.bits)
  }

  lemma {:induction false} ClearSet(bits: seq<bool>, b: nat)
    requires b < |bits| && !bits[b]
    ensures Clear(bits[b := true]) + 1 == Clear(bits)
  {
    var n := |bits| - 1;
    if b == n {
      assert bits[b := true][..n] == bits[..n];
    } else {
      assert bits[b := true][..n] == bits[..n][b := true];
      ClearSet(bits[..n], b);
    }
  }

  lemma {:induction false} NoneClear(bits: seq<bool>)
    ensures Clear(bits) == 0 <==> forall c: nat :: c < |bits| ==> bits[c]
  {
    if bits != [] {
      NoneClear(bits[..|bits| - 1]);
      assert forall c: nat :: c < |bits| - 1 ==> bits[c] == bits[..|bits| - 1][c];
    }
  }

  /** Blocks that mapping block bn of file i takes. */
  ghost function MapCost(f: Fs, i: nat, bn: nat): nat {
    (if Slot(f, i, SlotOf(bn)) == 0 then 1 else 0) + (if bn >= NDIRECT && Slot(f, i, NDIRECT) == 0 then 1 else 0)
  }

  /** g is f with block bn of file i mapped, at the price that this has. */
  ghost predicate Maps(f: Fs, g: Fs, i: nat, bn: nat) {
    && (forall j: nat, t: nat :: Slot(g, j, t) == Slot(f, j, t) || (j == i && (t == SlotOf(bn) || (bn >= NDIRECT && t == NDIRECT))))
    && Slot(g, i, SlotOf(bn)) != 0 && (bn >= NDIRECT ==> Slot(g, i, NDIRECT) != 0)
    && Free(g) + MapCost(f, i, bn) == Free(f)
  }

  /** Unmapped blocks of file i from block bn up to block end. */
  function Holes(f: Fs, i: nat, bn: nat, end: nat): nat
    decreases end - bn
  {
    if bn >= end then 0 else (if Slot(f, i, SlotOf(bn)) == 0 then 1 else 0) + Holes(f, i, bn + 1, end)
  }

  /** Blocks that have to be allocated to map the bytes of file i from off to to. */
  function Missing(f: Fs, i: nat, off: nat, to: nat): nat {
    if off >= to then 0
    else
      Holes(f, i, off / BSIZE, (to - 1) / BSIZE + 1) +
      if (to - 1) / BSIZE >= NDIRECT && Slot(f, i, NDIRECT) == 0 then 1 else 0
  }

  lemma {:induction false} SameHoles(f: Fs, g: Fs, i: nat, bn: nat, end: nat)
    requires forall b: nat :: bn <= b ==> Slot(g, i, SlotOf(b)) == Slot(f, i, SlotOf(b))
    ensures Holes(g, i, bn, end) == Holes(f, i, bn, end)
    decreases end - bn
  {
    if bn < end {
      SameHoles(f, g, i, bn + 1, end);
    }
  }

  /** Mapping the first block of a range takes its price off what is missing. */
  lemma MissingNext(f: Fs, g: Fs, i: nat, at: nat, k: nat, to: nat)
    requires 0 < k && at + k <= to && at % BSIZE + k <= BSIZE && (at + k == to || at % BSIZE + k == BSIZE)
    requires Maps(f, g, i, at / BSIZE)
    ensures Missing(f, i, at, to) == MapCost(f, i, at / BSIZE) + Missing(g, i, at + k, to)
  {
    hide Slot, Clear;
    var bn, end := at / BSIZE, (to - 1) / BSIZE + 1;
    assert at == bn * BSIZE + at % BSIZE;
    if at + k == to {
      assert end == bn + 1;
      assert Holes(f, i, bn + 1, end) == 0;
    } else {
      assert (at + k) / BSIZE == bn + 1;
      SameHoles(f, g, i, bn + 1, end);
    }
  }

  lemma MissingLess(f: Fs, i: nat, at: nat, to: nat)
    requires at < to
    ensures MapCost(f, i, at / BSIZE) <= Missing(f, i, at, to)
  {
    hide Slot;
    assert at / BSIZE <= (to - 1) / BSIZE;
  }

  /** From f at off, the blocks allocated up to position at are those that the range lacks there. */
  ghost predicate Paid(f: Fs, g: Fs, i: nat, off: nat, at: nat, to: nat) {
    Free(f) + Missing(g, i, at, to) == Free(g) + Missing(f, i, off, to)
  }

  lemma PaidNext(f: Fs, g0: Fs, g: Fs, h: Fs, i: nat, off: nat, at: nat, k: nat, to: nat)
    requires 0 < k && at + k <= to && at % BSIZE + k <= BSIZE && (at + k == to || at % BSIZE + k == BSIZE)
    requires Paid(f, g0, i, off, at, to) && Maps(g0, g, i, at / BSIZE) && SameSlots(g, h) && h.bits == g.bits
    ensures Paid(f, h, i, off, at + k, to)
  {
    hide Slot, Clear, Missing, MapCost;
    forall j: nat, t: nat
      ensures Slot(h, j, t) == Slot(g0, j, t) || (j == i && (t == SlotOf(at / BSIZE) || (at / BSIZE >= NDIRECT && t == NDIRECT)))
    {
      assert Slot(h, j, t) == Slot(g, j, t);
    }
    MissingNext(g0, h, i, at, k, to);
  }

  /** What cannot be paid for block by block cannot be paid for as a whole. */
  lemma CannotPay(f: Fs, g: Fs, i: nat, off: nat, at: nat, to: nat)
    requires Paid(f, g, i, off, at, to) && at < to && Free(g) < MapCost(g, i, at / BSIZE)
    ensures Free(f) < Missing(f, i, off, to)
  {
    hide Slot, Clear, Missing, MapCost;
    MissingLess(g, i, at, to);
  }

  lemma NothingMissing(f: Fs, i: nat, to: nat)
    ensures Missing(f, i, to, to) == 0
  {
  }

  /** A free block, marked, zeroed and put into an empty address slot. */
  lemma NewAddr(f: Fs, i: nat, s: nat, b: Word)
    requires Good(f) && i < |f.inodes| && s <= NDIRECT && Slot(f, i, s) == 0
    requires b < |f.bits| && !f.bits[b]
    ensures var g := SetAddr(Allocate(f, b), i, s, b);
            Good(g) && Extends(f, g, i) && Slot(g, i, s) == b && b != 0 && SlotsWith(f, g, i, s, b) && Free(g) + 1 == Free(f)
  {
    assert !Owns(f, b) && b >= f.meta;
    AllocateKeeps(f, b);
    ClearSet(f.bits, b);
    var a := Allocate(f, b);
    SameSlotsExclusive(f, a);
    SetAddrKeeps(a, i, s, b);
    var g := SetAddr(a, i, s, b);
    assert SlotsWith(f, g, i, s, b);
    assert SameRaw(f, g) by {
      forall j: nat, p: nat
        ensures Raw(g, j, p) == Raw(f, j, p)
      {
        assert Raw(a, j, p) == Raw(f, j, p);
      }
    }
  }

  lemma NewEntry(f: Fs, i: nat, e: nat, b: Word)
    requires Good(f) && i < |f.inodes| && e < NINDIRECT && IsData(f, f.inodes[i].addrs[NDIRECT])
    requires Slot(f, i, NDIRECT + 1 + e) == 0
    requires b < |f.bits| && !f.bits[b]
    ensures var g := SetEntry(Allocate(f, b), i, e, b);
            && Good(g) && Extends(f, g, i) && Slot(g, i, NDIRECT + 1 + e) == b && b != 0
            && SlotsWith(f, g, i, NDIRECT + 1 + e, b) && Free(g) + 1 == Free(f)
  {
    hide Clear, WordAt, PutWord;
    assert !Owns(f, b) && b >= f.meta;
    AllocateKeeps(f, b);
    ClearSet(f.bits, b);
    var a := Allocate(f, b);
    SameSlotsExclusive(f, a);
    SetEntryKeeps(a, i, e, b);
    var g := SetEntry(a, i, e, b);
    assert SlotsWith(f, g, i, NDIRECT + 1 + e, b);
    assert SameRaw(f, g) by {
      forall j: nat, p: nat
        ensures Raw(g, j, p) == Raw(f, j, p)
      {
        assert Raw(a, j, p) == Raw(f, j, p);
      }
    }
  }

  // ---------------------------------------------------------------- writing

  function PutBlock(f: Fs, a: nat, blk: Block): Fs
    requires a < |f.blocks|
  {
    f.(blocks := f.blocks[a := blk])
  }

  /** Overwriting a block of one file changes those bytes of that file and nothing else. */
  lemma PutBlockChanges(f: Fs, i: nat, bn: nat, blk: Block)
    requires Shape(f) && Exclusive(f) && bn < MAXFILE && Slot(f, i, SlotOf(bn)) != 0
    ensures var g := PutBlock(f, Slot(f, i, SlotOf(bn)), blk);
            && Shape(g) && SameSlots(f, g) && Exclusive(g) && Owned(g) == Owned(f)
            && forall j: nat, p: nat ::
                 Raw(g, j, p) == if j == i && p / BSIZE == bn then blk[p % BSIZE] else Raw(f, j, p)
  {
    var a := Slot(f, i, SlotOf(bn));
    var g := PutBlock(f, a, blk);
    forall j: nat, t: nat
      ensures Slot(g, j, t) == Slot(f, j, t)
    {
      assert Slot(f, j, NDIRECT) != a;
    }
    SameSlotsExclusive(f, g);
    forall j: nat, p: nat
      ensures Raw(g, j, p) == if j == i && p / BSIZE == bn then blk[p % BSIZE] else Raw(f, j, p)
    {
      assert Slot(f, j, SlotOf(p / BSIZE)) == a ==> j == i && p / BSIZE == bn;
    }
  }

  // ------------------------------------------------------------- truncation

  /** Slots s, s+1, ... up to (not including) e of inode i emptied. */
  ghost predicate SlotsCleared(f: Fs, g: Fs, i: nat, s: nat, e: nat) {
    forall j: nat, t: nat :: Slot(g, j, t) == if j == i && s <= t < e then 0 else Slot(f, j, t)
  }

  /** The blocks named by slots s .. e-1 of inode i. */
  ghost function Named(f: Fs, i: nat, s: nat, e: nat): iset<nat> {
    iset b: nat | IsNamed(f, i, s, e, b)
  }

  ghost predicate IsNamed(f: Fs, i: nat, s: nat, e: nat, b: nat) {
    b != 0 && exists t: nat :: s <= t < e && Slot(f, i, t) == b
  }

  lemma SlotsClearedExclusive(f: Fs, g: Fs, i: nat, s: nat, e: nat)
    requires Exclusive(f) && SlotsCleared(f, g, i, s, e) && g.meta == f.meta && |g.blocks| == |f.blocks|
    ensures Exclusive(g) && Owned(g) == Owned(f) - Named(f, i, s, e)
  {
    forall b: nat
      ensures Owns(g, b) <==> Owns(f, b) && b !in Named(f, i, s, e)
    {
      if Owns(g, b) {
        var j: nat, t: nat :| Slot(g, j, t) == b && b != 0;
        assert Slot(f, j, t) == b;
      }
      if Owns(f, b) && b !in Named(f, i, s, e) {
        var j: nat, t: nat :| Slot(f, j, t) == b && b != 0;
        assert Slot(g, j, t) == b;
      }
    }
  }

  /** Emptying a direct slot. */
  lemma ClearDirect(f: Fs, i: nat, s: nat)
    requires Shape(f) && Exclusive(f) && i < |f.inodes| && s < NDIRECT
    ensures var g := SetAddr(f, i, s, 0);
            Shape(g) && Exclusive(g) && SlotsCleared(f, g, i, s, s + 1) && Owned(g) == Owned(f) - Named(f, i, s, s + 1)
  {
    SlotsClearedExclusive(f, SetAddr(f, i, s, 0), i, s, s + 1);
  }

  /** Emptying the indirect slot drops the indirect block and everything it names. */
  lemma ClearIndirect(f: Fs, i: nat)
    requires Shape(f) && Exclusive(f) && i < |f.inodes|
    ensures var g := SetAddr(f, i, NDIRECT, 0);
            && Shape(g) && Exclusive(g) && SlotsCleared(f, g, i, NDIRECT, SLOTS)
            && Owned(g) == Owned(f) - Named(f, i, NDIRECT, SLOTS)
  {
    var g := SetAddr(f, i, NDIRECT, 0);
    forall j: nat, t: nat
      ensures Slot(g, j, t) == if j == i && NDIRECT <= t < SLOTS then 0 else Slot(f, j, t)
    {
    }
    SlotsClearedExclusive(f, g, i, NDIRECT, SLOTS);
  }

  /** A block that is named by a slot and not yet freed has its bit set, so bfree does not panic. */
  lemma NamedIsMarked(f: Fs, i: nat, t: nat, s: nat)
    requires Shape(f) && Exclusive(f) && Slot(f, i, t) != 0 && s <= t
    requires Tracks(f, Owned(f) - Named(f, i, s, t))
    ensures Slot(f, i, t) < |f.bits| && f.bits[Slot(f, i, t)]
    ensures Tracks(f.(bits := f.bits[Slot(f, i, t) := false]), Owned(f) - Named(f, i, s, t + 1))
  {
    var b := Slot(f, i, t);
    assert Owns(f, b);
    assert b !in Named(f, i, s, t);
    forall c: nat
      ensures c in Named(f, i, s, t + 1) <==> c in Named(f, i, s, t) || c == b
    {
      if c in Named(f, i, s, t + 1) {
        var u: nat :| s <= u < t + 1 && Slot(f, i, u) == c;
      }
    }
  }

  lemma NamedSkip(f: Fs, i: nat, t: nat, s: nat)
    requires Slot(f, i, t) == 0 && s <= t
    ensures Named(f, i, s, t + 1) == Named(f, i, s, t)
  {
    forall c: nat
      ensures c in Named(f, i, s, t + 1) <==> c in Named(f, i, s, t)
    {
      if c in Named(f, i, s, t + 1) {
        var u: nat :| s <= u < t + 1 && Slot(f, i, u) == c;
      }
    }
  }

  // --------------------------------------------------------- file contents

  /** The bytes of every file in g are those of f, except that file i has data at offset off. */
  ghost predicate Overlaid(f: Fs, g: Fs, i: nat, off: nat, data: seq<Byte>) {
    forall j: nat, p: nat ::
      Raw(g, j, p) == if j == i && off <= p < off + |data| then data[p - off] else Raw(f, j, p)
  }

  /** Every block that holds a byte of file i in [from, to) is mapped. */
  ghost predicate MappedRange(f: Fs, i: nat, from: nat, to: nat) {
    forall p: nat :: from <= p < to ==> Slot(f, i, SlotOf(p / BSIZE)) != 0
  }

  /** The inode's own address on the way to block bn: the direct one, or the indirect block's. */
  function AddrOf(f: Fs, i: nat, bn: nat): nat {
    if i < |f.inodes| then f.inodes[i].addrs[if bn < NDIRECT then bn else NDIRECT] else 0
  }

  /** The inode has an address for every block that holds a byte of file i in [from, to). */
  ghost predicate Addressed(f: Fs, i: nat, from: nat, to: nat) {
    forall p: nat :: from <= p < to ==> AddrOf(f, i, p / BSIZE) != 0
  }

  lemma SlotNeedsAddr(f: Fs, i: nat, bn: nat)
    requires Shape(f) && Slot(f, i, SlotOf(bn)) != 0
    ensures AddrOf(f, i, bn) != 0
  {
  }

  lemma MappedIsAddressed(f: Fs, i: nat, from: nat, to: nat)
    requires Shape(f) && MappedRange(f, i, from, to)
    ensures Addressed(f, i, from, to)
  {
    forall p: nat | from <= p < to
      ensures AddrOf(f, i, p / BSIZE) != 0
    {
      SlotNeedsAddr(f, i, p / BSIZE);
    }
  }

  /** Every block below the size of file i is mapped. */
  ghost predicate Mapped(f: Fs, i: nat) {
    i < |f.inodes| && MappedRange(f, i, 0, f.inodes[i].size)
  }

  function Max(a: nat, b: nat): nat {
    if a < b then b else a
  }

  /** What a write at offset off makes of a file's bytes, for off <= |was|. */
  function Patched(was: seq<Byte>, off: nat, data: seq<Byte>): (r: seq<Byte>)
    requires off <= |was|
    ensures |r| == Max(|was|, off + |data|)
  {
    was[..off] + data + (if off + |data| < |was| then was[off + |data|..] else [])
  }

  /** An overlay seen through the files' sizes. */
  lemma OverlayContents(f: Fs, g: Fs, i: nat, off: nat, data: seq<Byte>, j: nat)
    requires Overlaid(f, g, i, off, data) && i < |f.inodes| && j < |f.inodes| == |g.inodes|
    requires off <= f.inodes[i].size && g.inodes[i].size == Max(f.inodes[i].size, off + |data|)
    requires j != i ==> g.inodes[j].size == f.inodes[j].size
    ensures Contents(g, j) == if j == i then Patched(Contents(f, i), off, data) else Contents(f, j)
  {
    hide Raw;
    var c, d := Contents(g, j), if j == i then Patched(Contents(f, i), off, data) else Contents(f, j);
    forall p | 0 <= p < |c|
      ensures c[p] == d[p]
    {
      assert Raw(g, j, p) == if j == i && off <= p < off + |data| then data[p - off] else Raw(f, j, p);
    }
  }

  /** What was written is what a read of the same range returns. */
  lemma ReadBack(f: Fs, g: Fs, i: nat, off: nat, data: seq<Byte>)
    requires Overlaid(f, g, i, off, data) && i < |f.inodes| == |g.inodes|
    requires off <= f.inodes[i].size && g.inodes[i].size == Max(f.inodes[i].size, off + |data|)
    ensures Contents(g, i)[off..off + |data|] == data
  {
    OverlayContents(f, g, i, off, data, i);
  }

  /** One block's part of a write, after the earlier parts. */
  lemma OverlayOne(f: Fs, g: Fs, i: nat, off: nat, data: seq<Byte>, at: nat, more: seq<Byte>, blk: Block)
    requires Shape(g) && Exclusive(g) && Overlaid(f, g, i, off, data)
    requires at == off + |data| && at / BSIZE < MAXFILE && at % BSIZE + |more| <= BSIZE
    requires Slot(g, i, SlotOf(at / BSIZE)) != 0
    requires IsData(g, Slot(g, i, SlotOf(at / BSIZE)))
    requires var was := g.blocks[Slot(g, i, SlotOf(at / BSIZE))];
             blk == was[..at % BSIZE] + more + was[at % BSIZE + |more|..]
    ensures var h := PutBlock(g, Slot(g, i, SlotOf(at / BSIZE)), blk);
            && Overlaid(f, h, i, off, data + more)
            && SameSlots(g, h) && Exclusive(h) && Owned(h) == Owned(g)
  {
    var h := PutBlock(g, Slot(g, i, SlotOf(at / BSIZE)), blk);
    PutBlockChanges(g, i, at / BSIZE, blk);
    forall j: nat, p: nat
      ensures Raw(h, j, p) == if j == i && off <= p < off + |data + more| then (data + more)[p - off] else Raw(f, j, p)
    {
      assert Raw(g, j, p) == if j == i && off <= p < off + |data| then data[p - off] else Raw(f, j, p);
      assert at == at / BSIZE * BSIZE + at % BSIZE && p == p / BSIZE * BSIZE + p % BSIZE;
    }
  }

  /** h is f after `data` has been written at off into file i, before its size is updated. */
  ghost predicate Progress(f: Fs, h: Fs, i: nat, off: nat, data: seq<Byte>) {
    && Good(h) && i < |f.inodes| == |h.inodes|
    && h.inodes == f.inodes[i := f.inodes[i].(addrs := h.inodes[i].addrs)]
    && Overlaid(f, h, i, off, data)
    && (forall t: nat :: Slot(f, i, t) != 0 ==> Slot(h, i, t) == Slot(f, i, t))
    && MappedRange(h, i, off, off + |data|)
    && (Addressed(f, i, off, off + |data|) <==> h.inodes == f.inodes)
  }

  lemma ProgressStart(f: Fs, i: nat, off: nat)
    requires Good(f) && i < |f.inodes|
    ensures Progress(f, f, i, off, [])
  {
  }

  lemma OverlaidExtends(f: Fs, g: Fs, h: Fs, i: nat, off: nat, data: seq<Byte>)
    requires Overlaid(f, g, i, off, data) && SameRaw(g, h)
    ensures Overlaid(f, h, i, off, data)
  {
    forall j: nat, p: nat
      ensures Raw(h, j, p) == if j == i && off <= p < off + |data| then data[p - off] else Raw(f, j, p)
    {
      assert Raw(h, j, p) == Raw(g, j, p);
    }
  }

  /** One round of writei: bmap extends g0 to g, then a block of g is overwritten. */
  lemma ProgressRound(f: Fs, g0: Fs, g: Fs, i: nat, off: nat, data: seq<Byte>, more: seq<Byte>, blk: Block)
    requires Progress(f, g0, i, off, data) && Good(g) && Extends(g0, g, i)
    requires var at := off + |data|;
             && at / BSIZE < MAXFILE && at % BSIZE + |more| <= BSIZE && |more| > 0
             && Slot(g, i, SlotOf(at / BSIZE)) != 0 && IsData(g, Slot(g, i, SlotOf(at / BSIZE)))
             && (AddrOf(g0, i, at / BSIZE) != 0 ==> g.inodes == g0.inodes)
             && var was := g.blocks[Slot(g, i, SlotOf(at / BSIZE))];
                blk == was[..at % BSIZE] + more + was[at % BSIZE + |more|..]
    ensures var h := PutBlock(g, Slot(g, i, SlotOf((off + |data|) / BSIZE)), blk);
            Good(h) && Progress(f, h, i, off, data + more) && SameSlots(g, h)
  {
    var at := off + |data|;
    var h := PutBlock(g, Slot(g, i, SlotOf(at / BSIZE)), blk);
    OverlaidExtends(f, g0, g, i, off, data);
    OverlayOne(f, g, i, off, data, at, more, blk);
    hide Raw, Overlaid, Exclusive, SameRaw;
    forall p: nat | off <= p < at + |more|
      ensures Slot(h, i, SlotOf(p / BSIZE)) != 0
    {
      if p >= at {
        SameBlock(at, p);
      } else {
        assert Slot(g0, i, SlotOf(p / BSIZE)) != 0;
      }
    }
    AddressesKept(f, g0, h, i, off, at, |more|);
  }

  /** The addresses in the inode stay as they were exactly if it had one for every block written. */
  lemma AddressesKept(f: Fs, g: Fs, h: Fs, i: nat, off: nat, at: nat, k: nat)
    requires i < |f.inodes| && off <= at && k > 0 && Shape(h) && MappedRange(h, i, off, at + k)
    requires Addressed(f, i, off, at) <==> g.inodes == f.inodes
    requires AddrOf(g, i, at / BSIZE) != 0 ==> h.inodes == g.inodes
    requires at % BSIZE + k <= BSIZE
    ensures Addressed(f, i, off, at + k) <==> h.inodes == f.inodes
  {
    MappedIsAddressed(h, i, off, at + k);
    assert Addressed(f, i, off, at + k) ==> AddrOf(f, i, at / BSIZE) != 0;
    if h.inodes == f.inodes {
      forall p: nat | off <= p < at + k
        ensures AddrOf(f, i, p / BSIZE) != 0
      {
        assert AddrOf(h, i, p / BSIZE) != 0;
      }
    }
  }

  function SetSize(f: Fs, i: nat, size: Word): Fs
    requires i < |f.inodes|
  {
    f.(inodes := f.inodes[i := f.inodes[i].(size := size)])
  }

  lemma SetSizeKeeps(f: Fs, i: nat, size: Word)
    requires i < |f.inodes|
    ensures var g := SetSize(f, i, size);
            SameSlots(f, g) && SameRaw(f, g) && (Good(f) ==> Good(g))
  {
    var g := SetSize(f, i, size);
    assert SameSlots(f, g);
    if Good(f) {
      SameSlotsExclusive(f, g);
    }
  }

  /** Addresses in use stay. */
  ghost predicate KeepsAddrs(was: Addrs, now: Addrs) {
    forall s: nat :: s <= NDIRECT && was[s] != 0 ==> now[s] == was[s]
  }

  /** The end of writei: the size covers what was written. */
  lemma ProgressEnds(f: Fs, h: Fs, i: nat, off: nat, data: seq<Byte>)
    requires Progress(f, h, i, off, data) && off <= f.inodes[i].size && Max(f.inodes[i].size, off + |data|) < TWO32
    ensures i < |h.inodes| && h.inodes == f.inodes[i := f.inodes[i].(addrs := h.inodes[i].addrs)]
    ensures KeepsAddrs(f.inodes[i].addrs, h.inodes[i].addrs)
    ensures var e := SetSize(h, i, Max(f.inodes[i].size, off + |data|));
            && Good(e) && Overlaid(f, e, i, off, data)
            && (Mapped(f, i) ==> Mapped(e, i))
            && (off + |data| <= f.inodes[i].size ==> (e.inodes == f.inodes <==> Addressed(f, i, off, off + |data|)))
  {
    var size := Max(f.inodes[i].size, off + |data|);
    var e := SetSize(h, i, size);
    forall s: nat | s <= NDIRECT && f.inodes[i].addrs[s] != 0
      ensures h.inodes[i].addrs[s] == f.inodes[i].addrs[s]
    {
      assert Slot(f, i, s) != 0 ==> Slot(h, i, s) == Slot(f, i, s);
    }
    SetSizeKeeps(h, i, size);
    OverlaidExtends(f, h, e, i, off, data);
    if Mapped(f, i) {
      forall p: nat | p < size
        ensures Slot(e, i, SlotOf(p / BSIZE)) != 0
      {
        if p < f.inodes[i].size {
          assert Slot(f, i, SlotOf(p / BSIZE)) != 0;
        } else {
          assert Slot(h, i, SlotOf(p / BSIZE)) != 0;
        }
      }
    }
  }

  /** dst holds the bytes of file i from off on. */
  ghost predicate ReadsFrom(f: Fs, i: nat, off: nat, dst: seq<Byte>) {
    forall q: nat :: q < |dst| ==> dst[q] == Raw(f, i, off + q)
  }

  lemma ExtendsSelf(f: Fs, i: nat)
    requires i < |f.inodes|
    ensures Extends(f, f, i)
  {
  }

  /** Positions in one block. */
  lemma SameBlock(at: nat, p: nat)
    requires at <= p && at % BSIZE + (p - at) < BSIZE
    ensures p / BSIZE == at / BSIZE && p % BSIZE == at % BSIZE + (p - at)
  {
  }

  lemma ReadMore(f: Fs, g: Fs, i: nat, off: nat, dst: seq<Byte>, m: nat)
    requires Good(g) && Extends(f, g, i) && ReadsFrom(f, i, off, dst)
    requires var at := off + |dst|;
             && at % BSIZE + m <= BSIZE
             && Slot(g, i, SlotOf(at / BSIZE)) != 0 && IsData(g, Slot(g, i, SlotOf(at / BSIZE)))
    ensures var at := off + |dst|;
            ReadsFrom(f, i, off, dst + g.blocks[Slot(g, i, SlotOf(at / BSIZE))][at % BSIZE..at % BSIZE + m])
  {
    hide Good, Slot;
    var at := off + |dst|;
    var a := Slot(g, i, SlotOf(at / BSIZE));
    var more := g.blocks[a][at % BSIZE..at % BSIZE + m];
    forall q: nat | q < |dst + more|
      ensures (dst + more)[q] == Raw(f, i, off + q)
    {
      if q >= |dst| {
        var p := off + q;
        SameBlock(at, p);
        assert Raw(g, i, p) == Raw(f, i, p);
      }
    }
  }

  lemma ReadsAre(f: Fs, i: nat, off: nat, dst: seq<Byte>)
    requires i < |f.inodes| && ReadsFrom(f, i, off, dst) && off + |dst| <= f.inodes[i].size
    ensures dst == Contents(f, i)[off..off + |dst|]
  {
    assert forall q: nat :: q < |dst| ==> dst[q] == Contents(f, i)[off + q];
  }

  // ------------------------------------------------------- truncating files

  lemma SlotIsData(f: Fs, i: nat, t: nat)
    requires Good(f) && Slot(f, i, t) != 0
    ensures IsData(f, Slot(f, i, t)) && f.bits[Slot(f, i, t)]
  {
    assert Owns(f, Slot(f, i, t));
  }

  lemma MetaMarked(f: Fs)
    requires Good(f)
    ensures forall c: nat :: c < f.meta ==> f.bits[c]
  {
  }

  /** Freeing the block in a direct slot and emptying the slot. */
  lemma FreeDirect(f: Fs, i: nat, s: nat)
    requires Good(f) && i < |f.inodes| && s < NDIRECT && Slot(f, i, s) != 0
    ensures Slot(f, i, s) < |f.bits| && f.bits[Slot(f, i, s)]
    ensures Good(SetAddr(f.(bits := f.bits[Slot(f, i, s) := false]), i, s, 0))
  {
    SlotIsData(f, i, s);
    var g := f.(bits := f.bits[Slot(f, i, s) := false]);
    SameSlotsExclusive(f, g);
    ClearDirect(g, i, s);
    var h := SetAddr(g, i, s, 0);
    forall b: nat | b < |h.bits|
      ensures h.bits[b] <==> b < h.meta || b in Owned(h)
    {
      assert IsNamed(g, i, s, s + 1, b) <==> b == Slot(f, i, s);
    }
  }

  /** f with the entries before e of inode i's indirect block freed. */
  ghost predicate FreedEntries(f: Fs, g: Fs, i: nat, e: nat) {
    && e <= NINDIRECT
    && g == f.(bits := g.bits) && |g.bits| == |f.bits|
    && Tracks(g, Owned(f) - Named(f, i, NDIRECT + 1, NDIRECT + 1 + e))
  }

  lemma FreeEntry(f: Fs, g: Fs, i: nat, e: nat)
    requires Good(f) && FreedEntries(f, g, i, e) && e < NINDIRECT
    ensures var b := Slot(f, i, NDIRECT + 1 + e);
            && (b == 0 ==> FreedEntries(f, g, i, e + 1))
            && (b != 0 ==> b < |g.bits| && g.bits[b] && FreedEntries(f, g.(bits := g.bits[b := false]), i, e + 1))
  {
    var t := NDIRECT + 1 + e;
    SameSlotsExclusive(f, g);
    assert Named(g, i, NDIRECT + 1, t) == Named(f, i, NDIRECT + 1, t) by {
      SameNamed(f, g, i, NDIRECT + 1, t);
    }
    SameNamed(f, g, i, NDIRECT + 1, t + 1);
    if Slot(f, i, t) == 0 {
      NamedSkip(f, i, t, NDIRECT + 1);
    } else {
      NamedIsMarked(g, i, t, NDIRECT + 1);
    }
  }

  lemma SameNamed(f: Fs, g: Fs, i: nat, s: nat, e: nat)
    requires SameSlots(f, g)
    ensures Named(g, i, s, e) == Named(f, i, s, e)
  {
    forall b: nat
      ensures IsNamed(g, i, s, e, b) <==> IsNamed(f, i, s, e, b)
    {
      if IsNamed(g, i, s, e, b) {
        var t: nat :| s <= t < e && Slot(g, i, t) == b;
        assert Slot(f, i, t) == b;
      }
      if IsNamed(f, i, s, e, b) {
        var t: nat :| s <= t < e && Slot(f, i, t) == b;
        assert Slot(g, i, t) == b;
      }
    }
  }

  /** After all entries: freeing the indirect block itself and emptying its slot. */
  lemma FreeIndirect(f: Fs, g: Fs, i: nat)
    requires Good(f) && i < |f.inodes| && FreedEntries(f, g, i, NINDIRECT) && Slot(f, i, NDIRECT) != 0
    ensures var r := Slot(f, i, NDIRECT);
            r < |g.bits| && g.bits[r] && Good(SetAddr(g.(bits := g.bits[r := false]), i, NDIRECT, 0))
  {
    var r := Slot(f, i, NDIRECT);
    SlotIsData(f, i, NDIRECT);
    assert !IsNamed(f, i, NDIRECT + 1, SLOTS, r);
    assert Owns(f, r);
    var h := g.(bits := g.bits[r := false]);
    SameSlotsExclusive(f, h);
    ClearIndirect(h, i);
    var k := SetAddr(h, i, NDIRECT, 0);
    SameNamed(f, h, i, NDIRECT, SLOTS);
    forall b: nat | b < |k.bits|
      ensures k.bits[b] <==> b < k.meta || b in Owned(k)
    {
      NamedSplit(f, i, b);
    }
  }

  lemma NamedSplit(f: Fs, i: nat, b: nat)
    ensures IsNamed(f, i, NDIRECT, SLOTS, b) <==>
            IsNamed(f, i, NDIRECT + 1, SLOTS, b) || (b != 0 && b == Slot(f, i, NDIRECT))
  {
    if IsNamed(f, i, NDIRECT, SLOTS, b) {
      var t: nat :| NDIRECT <= t < SLOTS && Slot(f, i, t) == b;
    }
  }
}
