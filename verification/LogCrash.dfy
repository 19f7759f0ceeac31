/**
 The redo log on disk (log.c): which single-block writes a commit and a recovery
 issue, in order, and what any crash between two of them leaves behind.
 */
module LogCrash {
  import opened Blocks

  const MAXOPBLOCKS: nat := 10
  const LOGSIZE: nat := 3 * MAXOPBLOCKS

  /** log.start and log.size, taken from the super block. */
  datatype Layout = Layout(start: nat, size: nat)

  datatype Write = Write(bno: nat, data: Block)

  /** A block outside the log area. */
  predicate Home(l: Layout, blocks: nat, b: nat) {
    b < blocks && !(l.start <= b < l.start + l.size)
  }

  ghost function SetOf(h: seq<nat>): set<nat> {
    set b | b in h
  }

  lemma {:induction false} DistinctCount(h: seq<nat>)
    requires Distinct(h)
    ensures |SetOf(h)| == |h|
  {
    if h != [] {
      DistinctCount(h[1..]);
      assert SetOf(h) == SetOf(h[1..]) + {h[0]};
    }
  }

  /** Block number of the t-th data block of the log. */
  function LogBlock(l: Layout, t: nat): nat {
    l.start + 1 + t
  }

  ghost predicate Distinct(h: seq<nat>) {
    forall i, j :: 0 <= i < j < |h| ==> h[i] != h[j]
  }

  /** A block list that fits the log area and names home blocks, each once. */
  ghost predicate GoodList(l: Layout, blocks: nat, h: seq<nat>) {
    && |h| <= LOGSIZE
    && |h| < l.size
    && Distinct(h)
    && forall t :: 0 <= t < |h| ==> Home(l, blocks, h[t])
  }

  ghost predicate Fits(l: Layout, d: Disk) {
    && 1 <= l.size
    && l.start + l.size <= |d| <= TWO32
  }

  /** The header block with the list `h` written over its first words. */
  function EncodeHead(b: Block, h: seq<Word>): Block
    requires |h| <= LOGSIZE
  {
    PutWords(b, 0, [|h|] + h)
  }

  /** The list stored in a header block; empty if the stored length is out of range. */
  function DecodeHead(b: Block): (h: seq<Word>)
    ensures |h| <= LOGSIZE
  {
    var n := WordAt(b, 0);
    if n <= LOGSIZE then seq(n, i requires 0 <= i < n => WordAt(b, i + 1)) else []
  }

  lemma HeadRoundTrip(b: Block, h: seq<Word>)
    requires |h| <= LOGSIZE
    ensures DecodeHead(EncodeHead(b, h)) == h
  {
    var ws: seq<Word> := [|h|] + h;
    var e := EncodeHead(b, h);
    WordAtPutWords(b, 0, ws, 0);
    assert |DecodeHead(e)| == |h|;
    forall i | 0 <= i < |h|
      ensures DecodeHead(e)[i] == h[i]
    {
      WordAtPutWords(b, 0, ws, i + 1);
    }
  }

  /** A disk whose header is readable and lists only home blocks. */
  ghost predicate GoodDisk(l: Layout, d: Disk) {
    && Fits(l, d)
    && WordAt(d[l.start], 0) <= LOGSIZE
    && GoodList(l, |d|, OnDisk(l, d))
  }

  function OnDisk(l: Layout, d: Disk): seq<Word>
    requires Fits(l, d)
  {
    DecodeHead(d[l.start])
  }

  ghost predicate SameHome(l: Layout, d: Disk, e: Disk) {
    |d| == |e| && forall b: nat :: Home(l, |d|, b) ==> d[b] == e[b]
  }

  /** The home blocks of `d` with those on the list replaced by their cached contents. */
  function Overlay(d: Disk, cache: map<nat, Block>, h: seq<nat>): (e: Disk)
    ensures |e| == |d|
  {
    seq(|d|, b requires 0 <= b < |d| => if b in h && b in cache then cache[b] else d[b])
  }

  // ---------------------------------------------------------------- commit

  /** Number of block writes commit() makes for a list of length n. */
  function CommitLength(n: nat): nat {
    if n == 0 then 0 else 2 * n + 2
  }

  /** The k-th block write of commit(): write_log, write_head, install_trans, write_head. */
  function CommitWrite(l: Layout, d: Disk, cache: map<nat, Block>, h: seq<Word>, k: nat): Write
    requires Fits(l, d) && |h| <= LOGSIZE && |h| < l.size
    requires forall t :: 0 <= t < |h| ==> h[t] in cache
  {
    if k < |h| then Write(LogBlock(l, k), cache[h[k]])
    else if k == |h| then Write(l.start, EncodeHead(d[l.start], h))
    else if k <= 2 * |h| then Write(h[k - |h| - 1], d[LogBlock(l, k - |h| - 1)])
    else Write(l.start, EncodeHead(d[l.start], []))
  }

  ghost predicate CanCommit(l: Layout, d: Disk, cache: map<nat, Block>, h: seq<Word>) {
    && Fits(l, d)
    && GoodList(l, |d|, h)
    && forall t :: 0 <= t < |h| ==> h[t] in cache
  }

  function Put(d: Disk, w: Write): Disk
    requires w.bno < |d|
  {
    d[w.bno := w.data]
  }

  /** What a commit has done to the disk after k writes. */
  ghost predicate CommitShape(l: Layout, d: Disk, cache: map<nat, Block>, h: seq<Word>, k: nat, e: Disk)
    requires CanCommit(l, d, cache, h)
  {
    var n := |h|;
    && |e| == |d|
    && (k <= n ==> e[l.start] == d[l.start])
    && (n < k < 2 * n + 2 ==> WordAt(e[l.start], 0) == n && OnDisk(l, e) == h)
    && (k == 2 * n + 2 ==> WordAt(e[l.start], 0) == 0 && OnDisk(l, e) == [])
    && (forall t :: 0 <= t < n && t < k ==> e[LogBlock(l, t)] == cache[h[t]])
    && (forall t :: 0 <= t < n ==> e[h[t]] == if t + n + 1 < k then cache[h[t]] else d[h[t]])
    && (forall b: nat :: Home(l, |d|, b) && b !in h ==> e[b] == d[b])
  }

  lemma EmptyHead(b: Block)
    ensures WordAt(EncodeHead(b, []), 0) == 0 && DecodeHead(EncodeHead(b, [])) == []
  {
    HeadRoundTrip(b, []);
    WordAtPutWords(b, 0, [0], 0);
  }

  lemma WriteLogShape(l: Layout, d: Disk, cache: map<nat, Block>, h: seq<Word>, k: nat, p: Disk)
    requires CanCommit(l, d, cache, h) && k < |h|
    requires CommitShape(l, d, cache, h, k, p)
    ensures CommitShape(l, d, cache, h, k + 1, Put(p, CommitWrite(l, p, cache, h, k)))
  {
  }

  lemma WriteHeadShape(l: Layout, d: Disk, cache: map<nat, Block>, h: seq<Word>, p: Disk)
    requires CanCommit(l, d, cache, h)
    requires CommitShape(l, d, cache, h, |h|, p)
    ensures CommitShape(l, d, cache, h, |h| + 1, Put(p, CommitWrite(l, p, cache, h, |h|)))
  {
    HeadRoundTrip(p[l.start], h);
    WordAtPutWords(p[l.start], 0, [|h|] + h, 0);
  }

  lemma InstallShape(l: Layout, d: Disk, cache: map<nat, Block>, h: seq<Word>, k: nat, p: Disk)
    requires CanCommit(l, d, cache, h) && |h| < k <= 2 * |h|
    requires CommitShape(l, d, cache, h, k, p)
    ensures CommitShape(l, d, cache, h, k + 1, Put(p, CommitWrite(l, p, cache, h, k)))
  {
    var w := CommitWrite(l, p, cache, h, k);
    assert w.data == cache[h[k - |h| - 1]];
  }

  lemma ClearShape(l: Layout, d: Disk, cache: map<nat, Block>, h: seq<Word>, p: Disk)
    requires CanCommit(l, d, cache, h)
    requires CommitShape(l, d, cache, h, 2 * |h| + 1, p)
    ensures CommitShape(l, d, cache, h, 2 * |h| + 2, Put(p, CommitWrite(l, p, cache, h, 2 * |h| + 1)))
  {
    EmptyHead(p[l.start]);
  }

  lemma CommitStepShape(l: Layout, d: Disk, cache: map<nat, Block>, h: seq<Word>, k: nat, p: Disk)
    requires CanCommit(l, d, cache, h) && k < 2 * |h| + 2
    requires CommitShape(l, d, cache, h, k, p)
    ensures CommitShape(l, d, cache, h, k + 1, Put(p, CommitWrite(l, p, cache, h, k)))
  {
    if k < |h| {
      WriteLogShape(l, d, cache, h, k, p);
    } else if k == |h| {
      WriteHeadShape(l, d, cache, h, p);
    } else if k < 2 * |h| + 1 {
      InstallShape(l, d, cache, h, k, p);
    } else {
      ClearShape(l, d, cache, h, p);
    }
  }

  ghost function NextCommitDisk(l: Layout, d: Disk, cache: map<nat, Block>, h: seq<Word>, k: nat, p: Disk): (e: Disk)
    requires CanCommit(l, d, cache, h) && k < 2 * |h| + 2
    requires CommitShape(l, d, cache, h, k, p)
    ensures |e| == |d| && CommitShape(l, d, cache, h, k + 1, e)
  {
    CommitStepShape(l, d, cache, h, k, p);
    Put(p, CommitWrite(l, p, cache, h, k))
  }

  /** The disk after the first k writes of a commit. */
  ghost function CommitDisk(l: Layout, d: Disk, cache: map<nat, Block>, h: seq<Word>, k: nat): (e: Disk)
    requires CanCommit(l, d, cache, h) && k <= 2 * |h| + 2
    ensures |e| == |d| && CommitShape(l, d, cache, h, k, e)
  {
    if k == 0 then d else NextCommitDisk(l, d, cache, h, k - 1, CommitDisk(l, d, cache, h, k - 1))
  }

  // -------------------------------------------------------------- recovery

  /** The k-th block write of recover_from_log(): install_trans, then clear the header. */
  function RecoveryWrite(l: Layout, d: Disk, h: seq<Word>, k: nat): Write
    requires Fits(l, d) && |h| < l.size
  {
    if k < |h| then Write(h[k], d[LogBlock(l, k)])
    else Write(l.start, EncodeHead(d[l.start], []))
  }

  ghost predicate RecoveryShape(l: Layout, d: Disk, k: nat, e: Disk)
    requires GoodDisk(l, d)
  {
    var h := OnDisk(l, d);
    && |e| == |d|
    && (k <= |h| ==> e[l.start] == d[l.start])
    && (k == |h| + 1 ==> WordAt(e[l.start], 0) == 0 && OnDisk(l, e) == [])
    && (forall t :: 0 <= t < |h| ==> e[LogBlock(l, t)] == d[LogBlock(l, t)])
    && (forall t :: 0 <= t < |h| ==> e[h[t]] == if t < k then d[LogBlock(l, t)] else d[h[t]])
    && (forall b: nat :: Home(l, |d|, b) && b !in h ==> e[b] == d[b])
  }

  lemma RecoveryStepShape(l: Layout, d: Disk, k: nat, p: Disk)
    requires GoodDisk(l, d) && k <= |OnDisk(l, d)|
    requires RecoveryShape(l, d, k, p)
    ensures RecoveryShape(l, d, k + 1, Put(p, RecoveryWrite(l, p, OnDisk(l, d), k)))
  {
    if k == |OnDisk(l, d)| {
      EmptyHead(p[l.start]);
    } else {
      assert p[LogBlock(l, k)] == d[LogBlock(l, k)];
    }
  }

  ghost function NextRecoveryDisk(l: Layout, d: Disk, k: nat, p: Disk): (e: Disk)
    requires GoodDisk(l, d) && k <= |OnDisk(l, d)|
    requires RecoveryShape(l, d, k, p)
    ensures |e| == |d| && RecoveryShape(l, d, k + 1, e) && GoodDisk(l, e)
  {
    RecoveryStepShape(l, d, k, p);
    Put(p, RecoveryWrite(l, p, OnDisk(l, d), k))
  }

  /** The disk after the first k writes of a recovery that read the header of `d`. */
  ghost function RecoveryDisk(l: Layout, d: Disk, k: nat): (e: Disk)
    requires GoodDisk(l, d) && k <= |OnDisk(l, d)| + 1
    ensures |e| == |d| && RecoveryShape(l, d, k, e) && GoodDisk(l, e)
  {
    if k == 0 then d else NextRecoveryDisk(l, d, k - 1, RecoveryDisk(l, d, k - 1))
  }

  ghost function Recovered(l: Layout, d: Disk): Disk
    requires GoodDisk(l, d)
  {
    RecoveryDisk(l, d, |OnDisk(l, d)| + 1)
  }

  /** A recovery that is cut off after k writes and started again gives the uninterrupted result. */
  lemma RecoveryRestarts(l: Layout, d: Disk, k: nat)
    requires GoodDisk(l, d)
    requires k <= |OnDisk(l, d)| + 1
    ensures GoodDisk(l, RecoveryDisk(l, d, k))
    ensures SameHome(l, Recovered(l, RecoveryDisk(l, d, k)), Recovered(l, d))
  {
    var e := RecoveryDisk(l, d, k);
  }

  function Min(a: nat, b: nat): nat {
    if a < b then a else b
  }

  /** The disk left by a series of recoveries, the i-th cut off by a crash after ks[i] writes. */
  ghost function AfterCrashes(l: Layout, d: Disk, ks: seq<nat>): (e: Disk)
    requires GoodDisk(l, d)
    ensures GoodDisk(l, e)
    decreases |ks|
  {
    if ks == [] then d
    else
      var k := Min(ks[0], |OnDisk(l, d)| + 1);
      AfterCrashes(l, RecoveryDisk(l, d, k), ks[1..])
  }

  /** Any number of interrupted recoveries does not change what the last one restores. */
  lemma {:induction false} CrashesDoNotMatter(l: Layout, d: Disk, ks: seq<nat>)
    requires GoodDisk(l, d)
    ensures SameHome(l, Recovered(l, AfterCrashes(l, d, ks)), Recovered(l, d))
    decreases |ks|
  {
    if ks != [] {
      var k := Min(ks[0], |OnDisk(l, d)| + 1);
      RecoveryRestarts(l, d, k);
      CrashesDoNotMatter(l, RecoveryDisk(l, d, k), ks[1..]);
    }
  }

  lemma RecoveredIsClean(l: Layout, d: Disk)
    requires GoodDisk(l, d)
    ensures GoodDisk(l, Recovered(l, d)) && OnDisk(l, Recovered(l, d)) == []
    ensures OnDisk(l, d) == [] ==> SameHome(l, Recovered(l, d), d)
  {
  }

  /** A log whose header lists `h` and whose data blocks hold the new contents recovers to them. */
  lemma RedoRestores(l: Layout, d: Disk, cache: map<nat, Block>, h: seq<Word>, e: Disk, r: Disk)
    requires CanCommit(l, d, cache, h) && |e| == |d| && GoodDisk(l, e) && OnDisk(l, e) == h
    requires forall t :: 0 <= t < |h| ==> e[LogBlock(l, t)] == cache[h[t]]
    requires forall b: nat :: Home(l, |d|, b) && b !in h ==> e[b] == d[b]
    requires RecoveryShape(l, e, |h| + 1, r)
    ensures SameHome(l, r, Overlay(d, cache, h))
  {
    forall b: nat | Home(l, |d|, b)
      ensures r[b] == Overlay(d, cache, h)[b]
    {
      if b in h {
        var t :| 0 <= t < |h| && h[t] == b;
        assert r[h[t]] == e[LogBlock(l, t)];
      }
    }
  }

  lemma CommitShapeIsGood(l: Layout, d: Disk, cache: map<nat, Block>, h: seq<Word>, k: nat, e: Disk)
    requires CanCommit(l, d, cache, h)
    requires GoodDisk(l, d) && OnDisk(l, d) == []
    requires k <= CommitLength(|h|) && CommitShape(l, d, cache, h, k, e)
    ensures GoodDisk(l, e)
    ensures OnDisk(l, e) == if |h| < k < 2 * |h| + 2 then h else []
  {
  }

  /** A commit that completes leaves the transaction installed and the log empty. */
  lemma CommitCompletes(l: Layout, d: Disk, cache: map<nat, Block>, h: seq<Word>, e: Disk)
    requires CanCommit(l, d, cache, h)
    requires GoodDisk(l, d) && OnDisk(l, d) == []
    requires h != [] && CommitShape(l, d, cache, h, CommitLength(|h|), e)
    ensures GoodDisk(l, e) && OnDisk(l, e) == []
    ensures SameHome(l, e, Overlay(d, cache, h))
  {
    CommitShapeIsGood(l, d, cache, h, CommitLength(|h|), e);
    forall b: nat | Home(l, |d|, b)
      ensures e[b] == Overlay(d, cache, h)[b]
    {
      if b in h {
        var t :| 0 <= t < |h| && h[t] == b;
        assert e[h[t]] == cache[h[t]];
      }
    }
  }

  /** A cut-off commit leaves a readable log that recovers to one of exactly two disks. */
  lemma CommitCut(l: Layout, d: Disk, cache: map<nat, Block>, h: seq<Word>, k: nat, e: Disk, ks: seq<nat>)
    requires CanCommit(l, d, cache, h)
    requires GoodDisk(l, d) && OnDisk(l, d) == []
    requires k <= CommitLength(|h|) && CommitShape(l, d, cache, h, k, e)
    ensures GoodDisk(l, e)
    ensures var r := Recovered(l, AfterCrashes(l, e, ks));
            && GoodDisk(l, r) && OnDisk(l, r) == []
            && SameHome(l, r, if k <= |h| then d else Overlay(d, cache, h))
  {
    CommitShapeIsGood(l, d, cache, h, k, e);
    CrashesDoNotMatter(l, e, ks);
    RecoveredIsClean(l, AfterCrashes(l, e, ks));
    if |h| < k < 2 * |h| + 2 {
      RedoRestores(l, d, cache, h, e, Recovered(l, e));
    } else if k <= |h| {
      RecoveredIsClean(l, e);
    } else {
      RecoveredIsClean(l, e);
      CommitCompletes(l, d, cache, h, e);
    }
  }

  /**
   Crash atomicity: whatever write of the commit the first crash precedes, and however many
   crashes interrupt the recoveries after it, the recovery that completes leaves every
   non-log block as before the transaction (no header write yet) or as after it (header written).
   */
  lemma CrashAtomicity(l: Layout, d: Disk, cache: map<nat, Block>, h: seq<Word>, k: nat, ks: seq<nat>)
    requires CanCommit(l, d, cache, h)
    requires GoodDisk(l, d) && OnDisk(l, d) == []
    requires k <= CommitLength(|h|)
    ensures GoodDisk(l, CommitDisk(l, d, cache, h, k))
    ensures var e := Recovered(l, AfterCrashes(l, CommitDisk(l, d, cache, h, k), ks));
            && OnDisk(l, e) == []
            && SameHome(l, e, if k <= |h| then d else Overlay(d, cache, h))
  {
    CommitCut(l, d, cache, h, k, CommitDisk(l, d, cache, h, k), ks);
  }

  /** One more write of a commit. */
  lemma CommitNext(l: Layout, d: Disk, cache: map<nat, Block>, h: seq<Word>, k: nat)
    requires CanCommit(l, d, cache, h) && k < 2 * |h| + 2
    ensures var p := CommitDisk(l, d, cache, h, k);
            var w := CommitWrite(l, p, cache, h, k);
            w.bno < |d| && CommitDisk(l, d, cache, h, k + 1) == p[w.bno := w.data]
  {
    hide CommitShape, Distinct;
  }
}
