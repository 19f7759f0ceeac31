/** Path names (fs.c:564-651): elements, lookups, and reference counts, as values. */
module PathModel {
  import opened Basics

  const DIRSIZ: nat := 14
  const NINODE: nat := 50
  const ROOTINO: nat := 1

  // ------------------------------------------------------------ elements

  function Trunc(w: string): string {
    if |w| <= DIRSIZ then w else w[..DIRSIZ]
  }

  /** The path from i on, cut at slashes, empty pieces dropped; `cur` is the piece being collected. */
  function Split(p: Text, i: nat, cur: string): seq<string>
    requires i <= |p|
    decreases |p| - i
  {
    if i == |p| then Piece(cur)
    else if p[i] == '/' then Piece(cur) + Split(p, i + 1, "")
    else Split(p, i + 1, cur + [p[i]])
  }

  function Piece(w: string): seq<string> {
    if w == "" then [] else [w]
  }

  function TruncAll(ws: seq<string>): seq<string> {
    if ws == [] then [] else [Trunc(ws[0])] + TruncAll(ws[1..])
  }

  /** The elements of a path. */
  function Components(p: Text): seq<string> {
    TruncAll(Split(p, 0, ""))
  }

  function SkipSlashes(p: Text, i: nat): (r: nat)
    requires i <= |p|
    ensures i <= r <= |p| && (r < |p| ==> p[r] != '/')
    decreases |p| - i
  {
    if i < |p| && p[i] == '/' then SkipSlashes(p, i + 1) else i
  }

  function ElemEnd(p: Text, i: nat): (r: nat)
    requires i <= |p|
    ensures i <= r <= |p| && (r < |p| ==> p[r] == '/') && (i < |p| && p[i] != '/' ==> i < r)
    decreases |p| - i
  {
    if i < |p| && p[i] != '/' then ElemEnd(p, i + 1) else i
  }

  /** What repeated skipelem yields from i on. */
  function Elements(p: Text, i: nat): seq<string>
    requires i <= |p|
    decreases |p| - i
  {
    var s := SkipSlashes(p, i);
    if s == |p| then []
    else
      var e := ElemEnd(p, s);
      [Trunc(p[s..e])] + Elements(p, SkipSlashes(p, e))
  }

  lemma {:induction false} SplitSlashes(p: Text, i: nat)
    requires i <= |p|
    ensures Split(p, i, "") == Split(p, SkipSlashes(p, i), "")
    decreases |p| - i
  {
    if i < |p| && p[i] == '/' {
      SplitSlashes(p, i + 1);
    }
  }

  lemma {:induction false} SplitElem(p: Text, s: nat, i: nat)
    requires s <= i <= |p| && forall k :: s <= k < i ==> p[k] != '/'
    ensures Split(p, i, p[s..i]) == Split(p, ElemEnd(p, i), p[s..ElemEnd(p, i)])
    decreases |p| - i
  {
    if i < |p| && p[i] != '/' {
      assert p[s..i + 1] == p[s..i] + [p[i]];
      SplitElem(p, s, i + 1);
    }
  }

  lemma SplitEnd(p: Text, e: nat, w: string)
    requires e <= |p| && (e < |p| ==> p[e] == '/') && w != ""
    ensures Split(p, e, w) == [w] + Split(p, SkipSlashes(p, e), "")
  {
    if e < |p| {
      SplitSlashes(p, e + 1);
    }
  }

  /** Repeated skipelem yields exactly the non-empty components, cut to 14 bytes. */
  lemma {:induction false} ElementsAreComponents(p: Text, i: nat)
    requires i <= |p|
    ensures Elements(p, i) == TruncAll(Split(p, i, ""))
    decreases |p| - i
  {
    var s := SkipSlashes(p, i);
    SplitSlashes(p, i);
    if s < |p| {
      var e := ElemEnd(p, s);
      assert p[s..s] == "";
      SplitElem(p, s, s);
      var w := p[s..e];
      var n := SkipSlashes(p, e);
      ElementsAreComponents(p, n);
      SplitEnd(p, e, w);
      var rest := Split(p, n, "");
      assert ([w] + rest)[1..] == rest;
    }
  }

  // -------------------------------------------------------------- lookups

  /** A directory entry, its name in a buffer of 14 bytes. */
  datatype Dirent = Dirent(inum: nat, name: Buffer)

  type Buffer = b: seq<char> | |b| == DIRSIZ witness seq(DIRSIZ, _ => '\0')

  /** The name in a buffer, from k on: up to a NUL, if there is one. */
  function NameFrom(b: Buffer, k: nat): string
    requires k <= DIRSIZ
    decreases DIRSIZ - k
  {
    if k == DIRSIZ || b[k] == '\0' then "" else [b[k]] + NameFrom(b, k + 1)
  }

  function NameOf(b: Buffer): string {
    NameFrom(b, 0)
  }

  datatype Node = Dir(entries: seq<Dirent>) | Other

  /** The inodes by number. */
  type Tree = map<nat, Node>

  /** Every entry in use names an inode that exists. */
  ghost predicate Closed(t: Tree) {
    ROOTINO in t && forall i, k :: i in t && t[i].Dir? && 0 <= k < |t[i].entries| && t[i].entries[k].inum != 0 ==> t[i].entries[k].inum in t
  }

  /** The first entry in use with this name. */
  function Lookup(es: seq<Dirent>, name: string): (r: Option<nat>)
    ensures r.None? <==> forall k :: 0 <= k < |es| ==> es[k].inum == 0 || NameOf(es[k].name) != name
    ensures r.Some? ==> exists k :: 0 <= k < |es| && es[k].inum == r.value && NameOf(es[k].name) == name && r.value != 0
  {
    if es == [] then None
    else if es[0].inum != 0 && NameOf(es[0].name) == name then Some(es[0].inum)
    else Lookup(es[1..], name)
  }

  function Child(t: Tree, i: nat, name: string): (r: Option<nat>) {
    if i in t && t[i].Dir? then Lookup(t[i].entries, name) else None
  }

  /** A path is resolved by one lookup after another. */
  function Walk(t: Tree, i: nat, names: seq<string>): (r: Option<nat>)
    decreases |names|
  {
    if names == [] then Some(i)
    else
      var c := Child(t, i, names[0]);
      if c.None? then None else Walk(t, c.value, names[1..])
  }

  lemma ChildExists(t: Tree, i: nat, name: string)
    requires Closed(t) && Child(t, i, name).Some?
    ensures Child(t, i, name).value in t
  {
  }

  lemma {:induction false} WalkExists(t: Tree, i: nat, names: seq<string>)
    requires Closed(t) && i in t && Walk(t, i, names).Some?
    ensures Walk(t, i, names).value in t
    decreases |names|
  {
    if names != [] {
      ChildExists(t, i, names[0]);
      WalkExists(t, Child(t, i, names[0]).value, names[1..]);
    }
  }

  /** Taking the last step last. */
  lemma {:induction false} WalkLast(t: Tree, i: nat, names: seq<string>)
    requires names != []
    ensures var n := |names| - 1;
            var p := Walk(t, i, names[..n]);
            Walk(t, i, names) == if p.None? then None else Child(t, p.value, names[n])
    decreases |names|
  {
    var n := |names| - 1;
    if n > 0 {
      var c := Child(t, i, names[0]);
      if c.Some? {
        WalkLast(t, c.value, names[1..]);
        assert names[1..][..n - 1] == names[..n][1..];
      }
    }
  }

  function Start(p: Text, cwd: nat): nat {
    if p != "" && p[0] == '/' then ROOTINO else cwd
  }

  /** namei */
  function Namei(t: Tree, cwd: nat, p: Text): Option<nat> {
    Walk(t, Start(p, cwd), Components(p))
  }

  /** nameiparent: all but the last step, to a directory. */
  function Nameiparent(t: Tree, cwd: nat, p: Text): Option<nat> {
    var names := Components(p);
    if names == [] then None
    else
      var d := Walk(t, Start(p, cwd), names[..|names| - 1]);
      if d.Some? && d.value in t && t[d.value].Dir? then d else None
  }

  /** namei is nameiparent followed by a lookup of the last element. */
  lemma NameiIsParentThenLookup(t: Tree, cwd: nat, p: Text)
    requires Components(p) != []
    ensures var names := Components(p);
            var d := Nameiparent(t, cwd, p);
            Namei(t, cwd, p) == if d.None? then None else Child(t, d.value, names[|names| - 1])
  {
    WalkLast(t, Start(p, cwd), Components(p));
  }

  // ------------------------------------------------------ reference counts

  /** A slot of the inode cache. */
  datatype Slot = Slot(ref: nat, inum: nat)

  /** References to inode i, over the whole cache. */
  function Refs(ss: seq<Slot>, i: nat): nat {
    if ss == [] then 0 else Refs(ss[..|ss| - 1], i) + (if ss[|ss| - 1].inum == i then ss[|ss| - 1].ref else 0)
  }

  /** An inode in use has one slot. */
  ghost predicate OneSlot(ss: seq<Slot>) {
    forall j, k :: 0 <= j < k < |ss| && ss[j].ref > 0 && ss[k].ref > 0 ==> ss[j].inum != ss[k].inum
  }

  lemma {:induction false} RefsUpdate(ss: seq<Slot>, k: nat, s: Slot, i: nat)
    requires k < |ss|
    ensures Refs(ss[k := s], i) == Refs(ss, i) - (if ss[k].inum == i then ss[k].ref else 0) + (if s.inum == i then s.ref else 0)
    decreases |ss|
  {
    var n := |ss| - 1;
    if k < n {
      assert ss[k := s][..n] == ss[..n][k := s];
      RefsUpdate(ss[..n], k, s, i);
    } else {
      assert ss[k := s][..n] == ss[..n];
    }
  }

  /** The references after, against those before, with one more for inode i (if plus is 1) or one less (if -1). */
  ghost predicate RefsChange(ss: seq<Slot>, ss': seq<Slot>, i: nat, plus: int) {
    forall j: nat :: Refs(ss', j) == Refs(ss, j) + (if j == i then plus else 0)
  }
}
