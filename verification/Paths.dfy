/**
 fs.c's path walking as it runs: a cursor over the path, the name buffer written in place,
 and the inode cache's reference counts moved by iget, idup and iput.
 */
module Paths {
  import opened Basics
  import opened PathModel

  datatype Outcome = Found(slot: nat) | NotFound | NoInodes

  /** The buffer holds the element, with a NUL if there is room for one. */
  ghost predicate NameIs(name: seq<char>, w: string) {
    |w| <= DIRSIZ == |name| && name[..|w|] == w && (|w| < DIRSIZ ==> name[|w|] == '\0')
  }

  lemma {:induction false} NameReads(name: Buffer, w: string, k: nat)
    requires NameIs(name, w) && k <= |w| && forall i :: 0 <= i < |w| ==> w[i] != '\0'
    ensures NameFrom(name, k) == w[k..]
    decreases |w| - k
  {
    if k < |w| {
      assert name[k] == name[..|w|][k] == w[k];
      NameReads(name, w, k + 1);
    }
  }

  /** namecmp, that is strncmp over 14 bytes. */
  method Namecmp(a: Buffer, b: Buffer) returns (same: bool)
    ensures same <==> NameOf(a) == NameOf(b)
  {
    var k := 0;
    while k < DIRSIZ && a[k] != '\0' && a[k] == b[k]
      invariant k <= DIRSIZ && (NameOf(a) == NameOf(b) <==> NameFrom(a, k) == NameFrom(b, k))
    {
      assert ([a[k]] + NameFrom(a, k + 1))[1..] == NameFrom(a, k + 1);
      assert ([b[k]] + NameFrom(b, k + 1))[1..] == NameFrom(b, k + 1);
      k := k + 1;
    }
    same := k == DIRSIZ || a[k] == b[k];
    if !same {
      assert NameFrom(a, k) == "" || NameFrom(a, k)[0] == a[k];
      assert NameFrom(b, k) == "" || NameFrom(b, k)[0] == b[k];
    }
  }

  /** skipelem from position i: the position after the element, or -1. */
  method Skipelem(p: Text, i: nat, name: array<char>) returns (r: int)
    requires i <= |p| && name.Length == DIRSIZ
    modifies name
    ensures r == -1 <==> Elements(p, i) == []
    ensures r == -1 ==> name[..] == old(name[..])
    ensures r != -1 ==> i < r <= |p| && Elements(p, i) == [Elements(p, i)[0]] + Elements(p, r) && NameIs(name[..], Elements(p, i)[0])
    ensures r != -1 && r < |p| ==> Elements(p, r) != []
  {
    var path := i;
    while path < |p| && p[path] == '/'
      invariant i <= path <= |p| && SkipSlashes(p, path) == SkipSlashes(p, i)
    {
      path := path + 1;
    }
    if path == |p| {
      return -1;
    }
    var s := path;
    while path < |p| && p[path] != '/'
      invariant s <= path <= |p| && ElemEnd(p, path) == ElemEnd(p, s)
    {
      path := path + 1;
    }
    ghost var e := path;
    var len := path - s;
    CopyName(p[s..path], name);
    while path < |p| && p[path] == '/'
      invariant e <= path <= |p| && SkipSlashes(p, path) == SkipSlashes(p, e)
    {
      path := path + 1;
    }
    assert Elements(p, i) == [Trunc(p[s..e])] + Elements(p, path);
    return path;
  }

  /** The copy into the name buffer. */
  method CopyName(w: string, name: array<char>)
    requires name.Length == DIRSIZ
    modifies name
    ensures NameIs(name[..], Trunc(w))
  {
    var n := if |w| >= DIRSIZ then DIRSIZ else |w|;
    for k := 0 to n
      invariant forall j :: 0 <= j < k ==> name[j] == w[j]
    {
      name[k] := w[k];
    }
    if |w| < DIRSIZ {
      name[|w|] := '\0';
    }
    assert name[..][..n] == w[..n];
  }

  class Icache {
    var slots: seq<Slot>
    const tree: Tree

    constructor (tree: Tree)
      requires Closed(tree)
      ensures this.tree == tree && Valid() && forall i: nat :: Refs(slots, i) == 0
    {
      this.tree := tree;
      slots := seq(NINODE, _ => Slot(0, 0));
      new;
      forall i: nat
        ensures Refs(slots, i) == 0
      {
        NoRefs(slots, i);
      }
    }

    ghost predicate Valid()
      reads this
    {
      |slots| == NINODE && OneSlot(slots) && Closed(tree)
    }

    /** iget; -1 where the source panics for want of a slot. */
    method Iget(inum: nat) returns (r: int)
      requires Valid()
      modifies this
      ensures Valid() && -1 <= r < NINODE
      ensures r == -1 <==> forall k :: 0 <= k < NINODE ==> old(slots)[k].ref > 0 && old(slots)[k].inum != inum
      ensures r == -1 ==> slots == old(slots)
      ensures r != -1 ==> slots[r].inum == inum && slots[r].ref > 0 && RefsChange(old(slots), slots, inum, 1)
      ensures r != -1 ==> forall k :: 0 <= k < NINODE && k != r ==> slots[k] == old(slots)[k]
      ensures r != -1 ==> slots[r].ref == old(slots)[r].ref + 1 && (old(slots)[r].ref > 0 ==> old(slots)[r].inum == inum)
    {
      var empty := -1;
      var k := 0;
      while k < NINODE
        invariant k <= NINODE && -1 <= empty < k && slots == old(slots)
        invariant forall j :: 0 <= j < k ==> !(slots[j].ref > 0 && slots[j].inum == inum)
        invariant empty != -1 ==> slots[empty].ref == 0
        invariant empty == -1 ==> forall j :: 0 <= j < k ==> slots[j].ref > 0
      {
        if slots[k].ref > 0 && slots[k].inum == inum {
          OneMore(slots, k, Slot(slots[k].ref + 1, inum), inum);
          slots := slots[k := Slot(slots[k].ref + 1, inum)];
          return k;
        }
        if empty == -1 && slots[k].ref == 0 {
          empty := k;
        }
        k := k + 1;
      }
      if empty == -1 {
        return -1;
      }
      OneMore(slots, empty, Slot(1, inum), inum);
      slots := slots[empty := Slot(1, inum)];
      return empty;
    }

    method Idup(k: nat)
      requires Valid() && k < NINODE && slots[k].ref > 0
      modifies this
      ensures Valid() && slots == old(slots)[k := Slot(old(slots)[k].ref + 1, old(slots)[k].inum)]
      ensures RefsChange(old(slots), slots, old(slots)[k].inum, 1)
    {
      OneMore(slots, k, Slot(slots[k].ref + 1, slots[k].inum), slots[k].inum);
      slots := slots[k := Slot(slots[k].ref + 1, slots[k].inum)];
    }

    /** iput, apart from freeing an inode that has no links. */
    method Iput(k: nat)
      requires Valid() && k < NINODE && slots[k].ref > 0
      modifies this
      ensures Valid() && slots == old(slots)[k := Slot(old(slots)[k].ref - 1, old(slots)[k].inum)]
      ensures RefsChange(old(slots), slots, old(slots)[k].inum, -1)
    {
      OneLess(slots, k);
      slots := slots[k := Slot(slots[k].ref - 1, slots[k].inum)];
    }

    /** dirlookup in the directory in slot dp. */
    method Dirlookup(dp: nat, name: Buffer) returns (r: Outcome)
      requires Valid() && dp < NINODE && slots[dp].ref > 0 && slots[dp].inum in tree && tree[slots[dp].inum].Dir?
      modifies this
      ensures Valid() && slots[dp].inum == old(slots)[dp].inum && slots[dp].ref >= old(slots)[dp].ref
      ensures r.NotFound? <==> Child(tree, old(slots)[dp].inum, NameOf(name)).None?
      ensures r.NotFound? ==> slots == old(slots)
      ensures r.Found? ==> r.slot < NINODE && slots[r.slot].ref > 0 && slots[r.slot].inum == Child(tree, old(slots)[dp].inum, NameOf(name)).value
      ensures r.Found? ==> RefsChange(old(slots), slots, slots[r.slot].inum, 1)
      ensures r.Found? ==> forall k :: 0 <= k < NINODE ==> slots[k].ref == old(slots)[k].ref + (if k == r.slot then 1 else 0)
      ensures r.NoInodes? ==> slots == old(slots) && forall k :: 0 <= k < NINODE ==> slots[k].ref > 0
    {
      var es := tree[slots[dp].inum].entries;
      var off := 0;
      while off < |es|
        invariant off <= |es| && slots == old(slots)
        invariant Lookup(es, NameOf(name)) == Lookup(es[off..], NameOf(name))
      {
        var same := Namecmp(name, es[off].name);
        if es[off].inum != 0 && same {
          var k := Iget(es[off].inum);
          return if k == -1 then NoInodes else Found(k);
        }
        assert es[off..][1..] == es[off + 1..];
        off := off + 1;
      }
      return NotFound;
    }

    /** The inode that the walk has reached is held once, in slot ip, and nothing else has changed. */
    ghost predicate HoldsOnly(ss: seq<Slot>, ip: nat)
      reads this
    {
      && Valid() && |ss| == NINODE && ip < NINODE && slots[ip].inum in tree && RefsChange(ss, slots, slots[ip].inum, 1)
      && forall k :: 0 <= k < NINODE ==> slots[k].ref == ss[k].ref + (if k == ip then 1 else 0)
    }

    /** One step of namex's loop: from the directory in slot ip to its child. */
    method Descend(ip: nat, name: Buffer, ghost ss: seq<Slot>) returns (r: Outcome)
      requires HoldsOnly(ss, ip) && slots[ip].inum in tree && tree[slots[ip].inum].Dir?
      modifies this
      ensures Valid()
      ensures r.Found? ==> HoldsOnly(ss, r.slot) && Child(tree, old(slots)[ip].inum, NameOf(name)) == Some(slots[r.slot].inum)
      ensures r.NotFound? ==> Child(tree, old(slots)[ip].inum, NameOf(name)).None? && RefsChange(ss, slots, 0, 0)
      ensures r.NoInodes? ==> AllBut(ss, ip)
    {
      hide Refs, Lookup, OneSlot;
      ghost var s0 := slots;
      r := Dirlookup(ip, name);
      if r.NoInodes? {
        return;
      }
      if r.Found? {
        ChildExists(tree, s0[ip].inum, NameOf(name));
      }
      ghost var s1 := slots;
      Iput(ip);
      if r.Found? {
        RefsThree(ss, s0, s1, slots, s0[ip].inum, s1[r.slot].inum);
      } else {
        RefsBack(ss, s0, slots, s0[ip].inum);
      }
    }

    /** namex; cwd is the slot of the current directory. */
    method Namex(p: Text, cwd: nat, parent: bool, name: array<char>) returns (r: Outcome)
      requires Valid() && name.Length == DIRSIZ && cwd < NINODE && slots[cwd].ref > 0 && slots[cwd].inum in tree
      modifies this, name
      ensures Valid()
      ensures r.Found? ==> r.slot < NINODE && slots[r.slot].ref > 0 && RefsChange(old(slots), slots, slots[r.slot].inum, 1)
      ensures r.Found? ==> (if parent then Nameiparent(tree, old(slots)[cwd].inum, p) else Namei(tree, old(slots)[cwd].inum, p)) == Some(slots[r.slot].inum)
      ensures r.Found? && parent ==> Components(p) != [] && NameIs(name[..], Components(p)[|Components(p)| - 1])
      ensures r.NotFound? ==> (if parent then Nameiparent(tree, old(slots)[cwd].inum, p) else Namei(tree, old(slots)[cwd].inum, p)).None?
      ensures r.NotFound? ==> RefsChange(old(slots), slots, 0, 0)
      ensures r.NoInodes? ==> exists f: nat :: AllBut(old(slots), f)
    {
      hide Refs, Lookup, OneSlot, Elements, Split, TruncAll;
      ghost var ss := slots;
      ghost var c := slots[cwd].inum;
      ghost var start := Start(p, c);
      ghost var names := Components(p);
      ElementsAreComponents(p, 0);
      var ip: int := cwd;
      if p != "" && p[0] == '/' {
        ip := Iget(ROOTINO);
        if ip == -1 {
          assert AllBut(ss, 0);
          return NoInodes;
        }
      } else {
        Idup(cwd);
      }
      var path := 0;
      while true
        invariant path <= |p| && 0 <= ip < NINODE && HoldsOnly(ss, ip)
        invariant Walked(tree, start, names, slots[ip].inum, Elements(p, path))
        invariant parent && names != [] ==> Elements(p, path) != []
        decreases |p| - path
      {
        ghost var rest := Elements(p, path);
        var next := Skipelem(p, path, name);
        if next == -1 {
          break;
        }
        if !tree[slots[ip].inum].Dir? {
          NotDir(tree, start, names, slots[ip].inum, rest);
          ghost var s0 := slots;
          Iput(ip);
          RefsBack(ss, s0, slots, s0[ip].inum);
          return NotFound;
        }
        LastElem(p, path, next);
        if parent && next == |p| {
          OneLeft(tree, start, names, slots[ip].inum, rest);
          return Found(ip);
        }
        ElemNoNul(p, path);
        NameReads(name[..], rest[0], 0);
        WalkOn(tree, start, names, slots[ip].inum, rest);
        r := Descend(ip, name[..], ss);
        if r.NoInodes? {
          return;
        }
        if r.NotFound? {
          return;
        }
        ip, path := r.slot, next;
      }
      if parent {
        ghost var s0 := slots;
        Iput(ip);
        RefsBack(ss, s0, slots, s0[ip].inum);
        return NotFound;
      }
      return Found(ip);
    }
  }

  /** Every slot is in use, except perhaps f. */
  ghost predicate AllBut(ss: seq<Slot>, f: nat) {
    forall k: nat :: k < |ss| && k != f ==> ss[k].ref > 0
  }

  /** From start, `names` and, from i, `rest` lead to the same places. */
  ghost predicate Walked(t: Tree, start: nat, names: seq<string>, i: nat, rest: seq<string>) {
    && Walk(t, start, names) == Walk(t, i, rest)
    && (rest != [] ==> names != [] && names[|names| - 1] == rest[|rest| - 1]
                       && Walk(t, start, names[..|names| - 1]) == Walk(t, i, rest[..|rest| - 1]))
  }

  /** Where the walk goes from a directory. */
  lemma WalkOn(t: Tree, start: nat, names: seq<string>, i: nat, rest: seq<string>)
    requires Walked(t, start, names, i, rest) && rest != []
    ensures var c := Child(t, i, rest[0]);
            && (c.Some? ==> Walked(t, start, names, c.value, rest[1..]))
            && (c.None? ==> Walk(t, start, names).None?)
            && (c.None? && |rest| > 1 ==> Walk(t, start, names[..|names| - 1]).None?)
  {
    var n := |rest| - 1;
    if n > 0 {
      assert rest[1..][..n - 1] == rest[..n][1..];
      assert rest[1..][n - 1] == rest[n];
    }
  }

  lemma NotDir(t: Tree, start: nat, names: seq<string>, i: nat, rest: seq<string>)
    requires Walked(t, start, names, i, rest) && rest != [] && !(i in t && t[i].Dir?)
    ensures Walk(t, start, names).None? && names != []
    ensures var d := Walk(t, start, names[..|names| - 1]); d.None? || !(d.value in t && t[d.value].Dir?)
  {
    assert |rest| == 1 ==> rest[..0] == [];
  }

  lemma OneLeft(t: Tree, start: nat, names: seq<string>, i: nat, rest: seq<string>)
    requires Walked(t, start, names, i, rest) && |rest| == 1
    ensures names != [] && Walk(t, start, names[..|names| - 1]) == Some(i) && names[|names| - 1] == rest[0]
  {
    assert rest[..0] == [];
  }

  /** The element that skipelem leaves at the end of the path is the last. */
  lemma LastElem(p: Text, i: nat, next: nat)
    requires i <= |p| && next <= |p| && Elements(p, i) != [] && Elements(p, i) == [Elements(p, i)[0]] + Elements(p, next)
    requires next < |p| ==> Elements(p, next) != []
    ensures next == |p| <==> |Elements(p, i)| == 1
    ensures Elements(p, i)[1..] == Elements(p, next)
  {
  }

  lemma ElemNoNul(p: Text, i: nat)
    requires i <= |p| && Elements(p, i) != []
    ensures var w := Elements(p, i)[0]; forall k :: 0 <= k < |w| ==> w[k] != '\0'
  {
    var s := SkipSlashes(p, i);
    var e := ElemEnd(p, s);
    var w := Trunc(p[s..e]);
    assert Elements(p, i)[0] == w;
    forall k | 0 <= k < |w|
      ensures w[k] != '\0'
    {
      assert w[k] == p[s + k];
    }
  }

  /** A reference gained and given back. */
  lemma RefsBack(ss: seq<Slot>, s1: seq<Slot>, s2: seq<Slot>, i: nat)
    requires RefsChange(ss, s1, i, 1) && RefsChange(s1, s2, i, -1)
    ensures RefsChange(ss, s2, 0, 0)
  {
    forall j: nat
      ensures Refs(s2, j) == Refs(ss, j)
    {
      assert Refs(s1, j) == Refs(ss, j) + (if j == i then 1 else 0);
    }
  }

  /** The reference on i passed on to j. */
  lemma RefsThree(ss: seq<Slot>, s0: seq<Slot>, s1: seq<Slot>, s2: seq<Slot>, i: nat, j: nat)
    requires RefsChange(ss, s0, i, 1) && RefsChange(s0, s1, j, 1) && RefsChange(s1, s2, i, -1)
    ensures RefsChange(ss, s2, j, 1)
  {
    forall k: nat
      ensures Refs(s2, k) == Refs(ss, k) + (if k == j then 1 else 0)
    {
      assert Refs(s0, k) == Refs(ss, k) + (if k == i then 1 else 0);
      assert Refs(s1, k) == Refs(s0, k) + (if k == j then 1 else 0);
    }
  }

  lemma {:induction false} NoRefs(ss: seq<Slot>, i: nat)
    requires forall k :: 0 <= k < |ss| ==> ss[k].ref == 0
    ensures Refs(ss, i) == 0
  {
    if ss != [] {
      NoRefs(ss[..|ss| - 1], i);
    }
  }

  lemma OneMore(ss: seq<Slot>, k: nat, s: Slot, i: nat)
    requires k < |ss| && s.inum == i && s.ref == ss[k].ref + 1 && (ss[k].ref > 0 ==> ss[k].inum == i)
    ensures RefsChange(ss, ss[k := s], i, 1)
  {
    forall j: nat
      ensures Refs(ss[k := s], j) == Refs(ss, j) + (if j == i then 1 else 0)
    {
      RefsUpdate(ss, k, s, j);
    }
  }

  lemma OneLess(ss: seq<Slot>, k: nat)
    requires k < |ss| && ss[k].ref > 0
    ensures RefsChange(ss, ss[k := Slot(ss[k].ref - 1, ss[k].inum)], ss[k].inum, -1)
  {
    forall j: nat
      ensures Refs(ss[k := Slot(ss[k].ref - 1, ss[k].inum)], j) == Refs(ss, j) + (if j == ss[k].inum then -1 else 0)
    {
      RefsUpdate(ss, k, Slot(ss[k].ref - 1, ss[k].inum), j);
    }
  }
}
