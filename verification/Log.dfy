/**
 log.c as it runs: `struct log` updated in place, over the buffer cache. The methods that
 commit and recover are proved to issue exactly the block writes whose every prefix
 LogCrash shows to be recoverable, among readers who hold buffers meanwhile, and to need no
 more of those than one besides the pinned ones.
 */
module Log {
  import opened Basics
  import opened Blocks
  import opened LogCrash
  import opened CacheModel
  import opened CacheView
  import opened Bio
  import GroupCommit

  /** The disks after each block write so far, and the blocks that others held at each. */
  datatype Past = Past(trace: seq<Disk>, seen: seq<set<nat>>)

  /** The cached contents of the listed blocks. */
  ghost function Logged(v: View, h: seq<nat>): map<nat, Block>
  {
    map b | b in h && b < |v.contents| :: v.contents[b]
  }

  lemma ListedBlocks(l: Layout, blocks: nat, h: seq<nat>)
    requires GoodList(l, blocks, h)
    ensures |SetOf(h)| == |h| && l.start !in SetOf(h)
    ensures forall t :: 0 <= t < |h| ==> LogBlock(l, t) !in SetOf(h)
  {
    DistinctCount(h);
  }

  /** The disk after k blocks have been copied from the log to their home locations. */
  ghost function InstallDisk(l: Layout, d: Disk, h: seq<Word>, k: nat): (e: Disk)
    requires Fits(l, d) && GoodList(l, |d|, h) && k <= |h|
    ensures |e| == |d|
    ensures forall t :: 0 <= t < |h| ==> e[LogBlock(l, t)] == d[LogBlock(l, t)]
  {
    if k == 0 then d
    else
      var p := InstallDisk(l, d, h, k - 1);
      Put(p, Write(h[k - 1], p[LogBlock(l, k - 1)]))
  }

  lemma {:induction false} InstallInCommit(l: Layout, d: Disk, cache: map<nat, Block>, h: seq<Word>, k: nat)
    requires CanCommit(l, d, cache, h) && k <= |h|
    ensures CommitDisk(l, d, cache, h, |h| + 1 + k) == InstallDisk(l, CommitDisk(l, d, cache, h, |h| + 1), h, k)
  {
    hide CommitShape, Distinct;
    if k > 0 {
      InstallInCommit(l, d, cache, h, k - 1);
    }
  }

  lemma {:induction false} InstallInRecovery(l: Layout, d: Disk, k: nat)
    requires GoodDisk(l, d) && k <= |OnDisk(l, d)|
    ensures RecoveryDisk(l, d, k) == InstallDisk(l, d, OnDisk(l, d), k)
  {
    hide RecoveryShape, Distinct;
    if k > 0 {
      InstallInRecovery(l, d, k - 1);
    }
  }

  /** `before`, followed by the disks after each of the first k writes of a commit. */
  ghost function CommitTrace(before: seq<Disk>, l: Layout, d: Disk, cache: map<nat, Block>, h: seq<Word>, k: nat): seq<Disk>
    requires CanCommit(l, d, cache, h) && k <= 2 * |h| + 2
  {
    if k == 0 then before else CommitTrace(before, l, d, cache, h, k - 1) + [CommitDisk(l, d, cache, h, k)]
  }

  ghost function RecoveryTrace(before: seq<Disk>, l: Layout, d: Disk, k: nat): seq<Disk>
    requires GoodDisk(l, d) && k <= |OnDisk(l, d)| + 1
  {
    if k == 0 then before else RecoveryTrace(before, l, d, k - 1) + [RecoveryDisk(l, d, k)]
  }

  ghost function InstallTrace(before: seq<Disk>, l: Layout, d: Disk, h: seq<Word>, k: nat): seq<Disk>
    requires Fits(l, d) && GoodList(l, |d|, h) && k <= |h|
  {
    if k == 0 then before else InstallTrace(before, l, d, h, k - 1) + [InstallDisk(l, d, h, k)]
  }

  lemma InstallNext(l: Layout, d: Disk, h: seq<Word>, k: nat)
    requires Fits(l, d) && GoodList(l, |d|, h) && k < |h|
    ensures var p := InstallDisk(l, d, h, k);
            h[k] < |d| && InstallDisk(l, d, h, k + 1) == p[h[k] := p[LogBlock(l, k)]]
  {
    hide Distinct;
  }

  lemma {:induction false} InstallTraceInCommit(before: seq<Disk>, l: Layout, d: Disk, cache: map<nat, Block>, h: seq<Word>, k: nat)
    requires CanCommit(l, d, cache, h) && k <= |h|
    ensures InstallTrace(CommitTrace(before, l, d, cache, h, |h| + 1), l, CommitDisk(l, d, cache, h, |h| + 1), h, k) ==
            CommitTrace(before, l, d, cache, h, |h| + 1 + k)
  {
    hide CommitShape, Distinct, CommitDisk;
    if k > 0 {
      InstallTraceInCommit(before, l, d, cache, h, k - 1);
      InstallInCommit(l, d, cache, h, k);
    }
  }

  lemma {:induction false} InstallTraceInRecovery(before: seq<Disk>, l: Layout, d: Disk, k: nat)
    requires GoodDisk(l, d) && k <= |OnDisk(l, d)|
    ensures InstallTrace(before, l, d, OnDisk(l, d), k) == RecoveryTrace(before, l, d, k)
  {
    hide RecoveryShape, Distinct, RecoveryDisk;
    if k > 0 {
      InstallTraceInRecovery(before, l, d, k - 1);
      InstallInRecovery(l, d, k);
    }
  }

  lemma CommitStarts(before: seq<Disk>, l: Layout, d: Disk, v: View, h: seq<Word>)
    requires Fits(l, d) && GoodList(l, |d|, h) && |v.contents| == |d|
    ensures CanCommit(l, d, Logged(v, h), h)
    ensures CommitDisk(l, d, Logged(v, h), h, 0) == d && CommitTrace(before, l, d, Logged(v, h), h, 0) == before
  {
  }

  lemma CommitEnds(before: seq<Disk>, l: Layout, d: Disk, cache: map<nat, Block>, h: seq<Word>)
    requires CanCommit(l, d, cache, h)
    ensures var s := CommitDisk(l, d, cache, h, |h| + 1);
            var p := InstallDisk(l, s, h, |h|);
            var e := CommitDisk(l, d, cache, h, 2 * |h| + 2);
            && e == p[l.start := EncodeHead(p[l.start], [])]
            && CommitTrace(before, l, d, cache, h, 2 * |h| + 2) ==
               InstallTrace(CommitTrace(before, l, d, cache, h, |h| + 1), l, s, h, |h|) + [e]
  {
    hide CommitShape, Distinct, InstallDisk, InstallTrace;
    InstallInCommit(l, d, cache, h, |h|);
    InstallTraceInCommit(before, l, d, cache, h, |h|);
    CommitNext(l, d, cache, h, 2 * |h| + 1);
  }

  lemma RecoveredIs(before: seq<Disk>, l: Layout, d: Disk)
    requires GoodDisk(l, d)
    ensures var h := OnDisk(l, d);
            var p := InstallDisk(l, d, h, |h|);
            && Recovered(l, d) == p[l.start := EncodeHead(p[l.start], [])]
            && RecoveryTrace(before, l, d, |h| + 1) == InstallTrace(before, l, d, h, |h|) + [Recovered(l, d)]
  {
    hide RecoveryShape, Distinct;
    InstallInRecovery(l, d, |OnDisk(l, d)|);
    InstallTraceInRecovery(before, l, d, |OnDisk(l, d)|);
  }

  /** The pinned blocks after the first k listed ones have been written. */
  ghost function Unpin(dirty: set<nat>, h: seq<nat>, k: nat): (u: set<nat>)
    requires k <= |h|
    ensures u <= dirty
  {
    if k == 0 then dirty else Unpin(dirty, h, k - 1) - {h[k - 1]}
  }

  lemma {:induction false} UnpinIs(dirty: set<nat>, h: seq<nat>, k: nat)
    requires k <= |h|
    ensures Unpin(dirty, h, k) == dirty - SetOf(h[..k])
  {
    if k > 0 {
      UnpinIs(dirty, h, k - 1);
      assert h[..k] == h[..k - 1] + [h[k - 1]];
    }
  }

  /** If they stand still, the others leave write_log the buffers for its first k blocks. */
  ghost predicate CanCopyAll(l: Layout, v: View, h: seq<nat>, k: nat)
    requires k <= |h|
  {
    forall t: nat :: t < k ==> CanFetchBoth(v, LogBlock(l, t), h[t])
  }

  /** The same for install_trans, which unpins blocks as it goes. */
  ghost predicate CanInstallAll(l: Layout, v: View, h: seq<nat>, k: nat)
    requires k <= |h|
  {
    forall t: nat :: t < k ==> CanFetchBoth(v.(dirty := Unpin(v.dirty, h, t)), LogBlock(l, t), h[t])
  }

  /** What commit needs: a spare buffer, and nobody holding a block of the log or of the list. */
  ghost predicate CanSeal(l: Layout, v: View, h: seq<nat>) {
    && |v.dirty + v.busy| < NBUF && l.start !in v.busy
    && forall t :: 0 <= t < |h| ==> LogBlock(l, t) !in v.busy && h[t] !in v.busy
  }

  /** Fewer pinned blocks leave no less room. */
  lemma FetchBoth(v: View, dirty: set<nat>, n: nat, m: nat)
    requires |v.dirty + v.busy| < NBUF && dirty <= v.dirty && n !in v.busy && m !in v.busy && m != n
    requires m in dirty || |v.dirty + v.busy| + 1 < NBUF
    ensures CanFetchBoth(v.(dirty := dirty), n, m)
  {
    SubsetSize(dirty + v.busy, v.dirty + v.busy);
    SubsetSize(dirty + (v.busy + {n}), v.dirty + v.busy + {n});
  }

  lemma InstallEnds(l: Layout, blocks: nat, h: seq<nat>, dirty: set<nat>)
    requires GoodList(l, blocks, h) && dirty <= SetOf(h)
    ensures forall t :: 0 <= t < |h| ==> LogBlock(l, t) !in dirty
    ensures Unpin(dirty, h, |h|) == {}
  {
    ListedBlocks(l, blocks, h);
    UnpinIs(dirty, h, |h|);
    assert h[..|h|] == h;
  }

  /** A listed block and its place in the log are two blocks of the disk. */
  lemma ListedIsHome(l: Layout, d: Disk, h: seq<nat>, k: nat)
    requires Fits(l, d) && GoodList(l, |d|, h) && k < |h|
    ensures h[k] < |d| && LogBlock(l, k) < |d| && h[k] != LogBlock(l, k)
  {
    assert Home(l, |d|, h[k]);
  }

  lemma PutWordsSnoc(b: Block, ws: seq<Word>, w: Word)
    requires |ws| < WORDS
    ensures PutWord(PutWords(b, 0, ws), |ws|, w) == PutWords(b, 0, ws + [w])
  {
  }

  class Log {
    const bc: BufferCache
    const l: Layout
    var outstanding: int
    var committing: bool
    var n: nat             // lh.n
    var block: seq<Word>   // lh.block

    function List(): seq<Word>
      reads this
      requires n <= |block|
    {
      block[..n]
    }

    ghost predicate Ready()
      reads this, bc
    {
      && bc.Valid() && Fits(l, bc.disk)
      && |block| == LOGSIZE && n <= LOGSIZE
      && GoodList(l, |bc.disk|, List())
    }

    /** The list is well formed and its blocks are the pinned ones. */
    ghost predicate Valid()
      reads this, bc
    {
      Ready() && bc.View().dirty == SetOf(List())
    }

    /** initlog: recover, then start with an empty log. Nobody else runs yet. */
    constructor (bc: BufferCache, l: Layout)
      requires bc.Valid() && Unused(bc) && GoodDisk(l, bc.disk)
      modifies bc
      ensures this.bc == bc && this.l == l
      ensures Valid() && n == 0 && outstanding == 0 && !committing && Unused(bc)
      ensures bc.disk == Recovered(l, old(bc.disk))
      ensures bc.trace == RecoveryTrace(old(bc.trace), l, old(bc.disk), |OnDisk(l, old(bc.disk))| + 1)
    {
      hide RecoveryShape, RecoveryDisk, RecoveryTrace, EncodeHead, DecodeHead, Distinct;
      this.bc := bc;
      this.l := l;
      outstanding := 0;
      committing := false;
      n := 0;
      block := seq(LOGSIZE, _ => 0);
      new;
      Recover();
    }

    // The locked sections of begin_op, end_op and log_write are steps of the protocol.

    /**
     The fields are those of protocol state s. `edited` are the listed blocks whose holders have
     changed them since they were last logged.
     */
    ghost predicate Represents(s: GroupCommit.State, edited: set<nat>)
      reads this, bc
    {
      && n <= |block| && s.l == l && s.outstanding == outstanding && s.committing == committing
      && s.lh == List() && s.disk == bc.disk && Agree(s.cache, bc.View().contents, List(), edited)
    }

    /** begin_op: one round under log.lock; false means sleep and try again. */
    method BeginOp(ghost s: GroupCommit.State, ghost edited: set<nat>, ghost i: nat) returns (admitted: bool)
      requires Represents(s, edited) && i < |s.procs| && s.procs[i] == GroupCommit.Outside
      modifies this`outstanding
      ensures admitted <==> GroupCommit.Enabled(s, GroupCommit.BeginOp(i))
      ensures Represents(if admitted then GroupCommit.Do(s, GroupCommit.BeginOp(i)) else s, edited)
    {
      if committing {
        return false;
      } else if n + (outstanding + 1) * MAXOPBLOCKS > LOGSIZE {
        return false;
      }
      outstanding := outstanding + 1;
      return true;
    }

    /** end_op, up to the point where it releases log.lock; true means that this process commits. Its panic is out of reach. */
    method EndOp(ghost s: GroupCommit.State, ghost edited: set<nat>, ghost i: nat) returns (doCommit: bool)
      requires Represents(s, edited) && GroupCommit.Inv(s)
      requires i < |s.procs| && s.procs[i].InOp? && !s.procs[i].checked
      modifies this`outstanding, this`committing
      ensures GroupCommit.Enabled(s, GroupCommit.EndOp(i)) && !old(committing)
      ensures var s' := GroupCommit.Do(s, GroupCommit.EndOp(i));
              Represents(s', edited) && (doCommit <==> s'.procs[i] == GroupCommit.Committing(0))
    {
      GroupCommit.SafeState(s, i);
      outstanding := outstanding - 1;
      if outstanding == 0 {
        committing := true;
        return true;
      }
      return false;
    }

    /** The unlocked checks at the head of log_write; false where it panics. */
    method CheckLogWrite(ghost s: GroupCommit.State, ghost edited: set<nat>, ghost i: nat) returns (ok: bool)
      requires Represents(s, edited) && i < |s.procs| && s.procs[i].InOp? && !s.procs[i].checked
      ensures ok <==> GroupCommit.Enabled(s, GroupCommit.CheckLogWrite(i))
      ensures ok ==> Represents(GroupCommit.Do(s, GroupCommit.CheckLogWrite(i)), edited)
    {
      return !(n >= LOGSIZE || n >= l.size - 1 || outstanding < 1);
    }

    /** The list and the cache while operations are under way: the pinned blocks are the listed ones. */
    ghost predicate Listing()
      reads this, bc
    {
      bc.InOrder() && |block| == LOGSIZE && n <= LOGSIZE && bc.View().dirty == SetOf(List())
    }

    /**
     The rest of log_write, under log.lock, for the held buffer j, whatever other operations have done
     since the check, and whatever they hold and have changed; all it needs is that the array has a
     place for the block. If the list does not outgrow the log area either, the invariant is kept.
     */
    method LogUpdate(j: nat, ghost s: GroupCommit.State, ghost edited: set<nat>, ghost i: nat)
      requires Listing() && j < NBUF && |bc.bufs| == NBUF && bc.bufs[j].busy && bc.bufs[j].valid
      requires bc.bufs[j].blockno < TWO32 && Home(l, |bc.disk|, bc.bufs[j].blockno)
      requires Represents(s, edited) && i < |s.procs| && s.procs[i].InOp? && s.procs[i].checked
      requires bc.bufs[j].blockno in List() || n < LOGSIZE
      modifies this`n, this`block, bc
      ensures Listing()
      ensures var a := GroupCommit.LogWrite(i, old(bc.bufs[j].blockno), old(bc.bufs[j].data));
              && GroupCommit.Enabled(s, a) && Represents(GroupCommit.Do(s, a), edited - {old(bc.bufs[j].blockno)})
              && (GroupCommit.Inv(s) && GroupCommit.Fresh(s, a) ==>
                    GroupCommit.Inv(GroupCommit.Do(s, a)) && (old(Valid()) && j in bc.mine ==> Valid()))
      ensures bc.disk == old(bc.disk) && bc.trace == old(bc.trace) && bc.mine == old(bc.mine)
      ensures bc.View() == old(bc.View()).(dirty := old(bc.View()).dirty + {old(bc.bufs[j].blockno)})
    {
      hide GroupCommit.Inv, CacheInv, Linked, ViewOf, OthersClean, GoodList;
      ghost var b, data := bc.bufs[j].blockno, bc.bufs[j].data;
      HeldContents(bc.Model(), j);
      LoggedStep(s, i, b, data);
      ghost var h := List();
      Append(bc.bufs[j].blockno);
      Agrees(s.cache, bc.View().contents, h, edited, b, data);
      AbsorbSet(h, b);
      bc.SetDirty(j);
    }

    /** log_write's scan of the list: the block is absorbed if it is there, else appended. */
    method Append(b: Word)
      requires |block| == LOGSIZE && n <= LOGSIZE && (b in block[..n] || n < LOGSIZE)
      modifies this`n, this`block
      ensures |block| == LOGSIZE && n <= LOGSIZE && List() == GroupCommit.Absorb(old(List()), b)
    {
      var k := 0;
      while k < n && block[k] != b
        invariant 0 <= k <= n
        invariant b !in block[..k]
      {
        k := k + 1;
      }
      ghost var was := List();
      assert k < n ==> was[k] == b;
      block := block[k := b];
      if k == n {
        n := n + 1;
      }
      assert List() == GroupCommit.Absorb(was, b);
    }

    /**
     commit(), called by the process that is to commit: each of its block writes is a step of the
     protocol, after a step in which readers come to hold what they held at that write.
     */
    method CommitLog(ghost s: GroupCommit.State, ghost i: nat) returns (ok: bool, ghost k: nat)
      requires Valid() && bc.mine == {} && Represents(s, {}) && GroupCommit.Inv(s)
      requires i < |s.procs| && s.procs[i] == GroupCommit.Committing(0)
      modifies this`n, bc
      ensures (ok <==> k == CommitLength(|s.lh|)) && k <= CommitLength(|s.lh|) && CanCommit(l, s.disk, s.cache, s.lh)
      ensures bc.trace == CommitTrace(old(bc.trace), l, s.disk, s.cache, s.lh, k)
      ensures old(bc.seen) <= bc.seen && |bc.seen| == |old(bc.seen)| + k
      ensures forall m: nat :: 0 < m <= k ==> IsCommitBlock(s, i, bc.seen[|old(bc.seen)|..], m)
      ensures ok ==> Valid() && bc.mine == {} && Represents(AfterCommit(s, i, bc.seen[|old(bc.seen)|..]), {})
      ensures old(bc.others) == [] ==> (ok <==> s.lh == [] || CanSeal(l, old(bc.View()), s.lh))
    {
      hide GroupCommit.Inv, CacheInv, Linked, ViewOf, OthersClean, CommitDisk, CommitTrace, CommitShape, GroupCommit.Do, GroupCommit.Enabled;
      hide IsCommitBlock, AfterCommit, CanSeal;
      ghost var v := bc.View();
      GroupCommit.CommitIsPossible(s);
      CommitStarts(bc.trace, l, s.disk, v, s.lh);
      ok, k := Commit();
      SameTrace(old(bc.trace), l, s.disk, s.cache, Logged(v, s.lh), s.lh, k);
      CommitIsProtocol(s, i, old(bc.seen), bc.seen, k);
    }

    /** The end of end_op, after commit. */
    method FinishCommit(ghost s: GroupCommit.State, ghost i: nat)
      requires Represents(s, {}) && i < |s.procs| && s.procs[i].Committing? && s.lh == []
      modifies this`committing
      ensures GroupCommit.Enabled(s, GroupCommit.FinishCommit(i)) && Represents(GroupCommit.Do(s, GroupCommit.FinishCommit(i)), {})
    {
      committing := false;
    }

    /** write_head's loop: the list copied over the first words of the header block. */
    method BuildHead(was: Block) returns (head: Block)
      requires |block| == LOGSIZE && n <= LOGSIZE
      ensures head == EncodeHead(was, List())
    {
      head := PutWord(was, 0, n);
      assert PutWords(was, 0, []) == was;
      PutWordsSnoc(was, [], n);
      for k := 0 to n
        invariant head == PutWords(was, 0, [n] + block[..k])
      {
        PutWordsSnoc(was, [n] + block[..k], block[k]);
        assert [n] + block[..k] + [block[k]] == [n] + block[..k + 1];
        head := PutWord(head, k + 1, block[k]);
      }
    }

    /** write_head; false if the bread of the header block sleeps for ever or panics. */
    method WriteHead() returns (ok: bool)
      requires Ready() && bc.mine == {} && l.start !in bc.View().dirty
      modifies bc
      ensures Ready() && bc.mine == {} && bc.View().dirty == old(bc.View()).dirty
      ensures ok ==> bc.disk == old(bc.disk)[l.start := EncodeHead(old(bc.disk)[l.start], List())]
                     && bc.trace == old(bc.trace) + [bc.disk]
                     && bc.View().contents == old(bc.View()).contents[l.start := bc.disk[l.start]]
                     && Adds(old(bc.seen), bc.seen, old(bc.View()).dirty)
      ensures !ok ==> bc.disk == old(bc.disk) && bc.trace == old(bc.trace) && bc.seen == old(bc.seen)
                      && bc.View().contents == old(bc.View()).contents
      ensures old(bc.others) == [] ==> bc.others == [] && bc.View().busy == old(bc.View()).busy && (ok <==> CanFetch(old(bc.View()), l.start))
    {
      hide CacheInv, Linked, ViewOf, OthersClean, EncodeHead, GoodList, Starved;
      UnheldReadsDisk(bc.Model(), {}, l.start);
      var r := bc.Bread(l.start);
      if !r.Granted? {
        return false;
      }
      var head := BuildHead(bc.bufs[r.i].data);
      HeldBusy(bc.Model(), r.i);
      SpareWhileHeld(bc.Model(), l.start, {l.start});
      bc.WriteAndRelease(r.i, head);
      return true;
    }

    /** One round of write_log: block tail of the list, from the cache to the log. */
    method WriteLogBlock(tail: nat) returns (ok: bool)
      requires Ready() && bc.mine == {} && tail < n && LogBlock(l, tail) !in bc.View().dirty && block[tail] in bc.View().dirty
      modifies bc
      ensures ok ==> Ready() && bc.mine == {} && block[tail] < |old(bc.disk)|
                     && bc.disk == old(bc.disk)[LogBlock(l, tail) := old(bc.View()).contents[block[tail]]]
                     && bc.trace == old(bc.trace) + [bc.disk] && bc.View().dirty == old(bc.View()).dirty
                     && bc.View().contents == old(bc.View()).contents[LogBlock(l, tail) := bc.disk[LogBlock(l, tail)]]
                     && |bc.View().dirty| < NBUF && Adds(old(bc.seen), bc.seen, old(bc.View()).dirty)
      ensures !ok ==> bc.disk == old(bc.disk) && bc.trace == old(bc.trace) && bc.seen == old(bc.seen)
      ensures old(bc.others) == [] ==> (ok <==> CanFetchBoth(old(bc.View()), LogBlock(l, tail), block[tail]))
      ensures old(bc.others) == [] && ok ==> bc.others == [] && bc.View().busy == old(bc.View()).busy
    {
      hide CacheInv, Linked, ViewOf, OthersClean, GoodList, CanFetchBoth;
      ListedIsHome(l, bc.disk, List(), tail);
      assert List()[tail] == block[tail];
      var to, from := bc.BreadTwo(LogBlock(l, tail), block[tail]);
      if !from.Granted? {
        return false;
      }
      ghost var busy := bc.View().busy;
      HeldBusy(bc.Model(), to.i);
      SpareWhileHeld(bc.Model(), LogBlock(l, tail), {block[tail], LogBlock(l, tail)});
      bc.CopyAndWrite(from.i, to.i);
      assert busy - {block[tail], LogBlock(l, tail)} == busy - {LogBlock(l, tail), block[tail]};
      return true;
    }

    /** One round of install_trans: block tail of the list, from the log to its home. */
    method InstallBlock(tail: nat) returns (ok: bool)
      requires Ready() && bc.mine == {} && tail < n && LogBlock(l, tail) !in bc.View().dirty
      modifies bc
      ensures ok ==> Ready() && bc.mine == {} && block[tail] < |old(bc.disk)|
                     && bc.disk == old(bc.disk)[block[tail] := old(bc.disk)[LogBlock(l, tail)]]
                     && bc.trace == old(bc.trace) + [bc.disk] && bc.View().dirty == old(bc.View()).dirty - {block[tail]}
                     && Adds(old(bc.seen), bc.seen, old(bc.View()).dirty)
      ensures !ok ==> bc.disk == old(bc.disk) && bc.trace == old(bc.trace) && bc.seen == old(bc.seen)
      ensures old(bc.others) == [] ==> (ok <==> CanFetchBoth(old(bc.View()), LogBlock(l, tail), block[tail]))
      ensures old(bc.others) == [] && ok ==> bc.others == [] && bc.View().busy == old(bc.View()).busy
    {
      hide CacheInv, Linked, ViewOf, OthersClean, GoodList, CanFetchBoth;
      ListedIsHome(l, bc.disk, List(), tail);
      assert List()[tail] == block[tail];
      UnheldReadsDisk(bc.Model(), {}, LogBlock(l, tail));
      var lbuf, dbuf := bc.BreadTwo(LogBlock(l, tail), block[tail]);
      if !dbuf.Granted? {
        return false;
      }
      HeldBusy(bc.Model(), lbuf.i);
      SpareWhileHeld(bc.Model(), LogBlock(l, tail), {LogBlock(l, tail), block[tail]});
      bc.CopyAndWrite(lbuf.i, dbuf.i);
      return true;
    }

    ghost function Now(): Past
      reads this, bc
    {
      Past(bc.trace, bc.seen)
    }

    /** The disk and its history, k block writes into a commit. */
    ghost predicate Wrote(d: Disk, cache: map<nat, Block>, h: seq<Word>, before: Past, k: nat)
      reads this, bc
    {
      && CanCommit(l, d, cache, h) && k <= CommitLength(|h|)
      && bc.disk == CommitDisk(l, d, cache, h, k) && bc.trace == CommitTrace(before.trace, l, d, cache, h, k)
      && Spared(h, before.seen, bc.seen, k)
    }

    /** k blocks of the list are in the log; the home blocks read as in view v. */
    ghost predicate Copied(d: Disk, v: View, before: Past, k: nat)
      reads this, bc
    {
      && Valid() && bc.mine == {} && |bc.disk| == |d| == |v.contents| && k <= n && bc.View().dirty == v.dirty
      && Wrote(d, Logged(v, List()), List(), before, k)
      && forall b: nat :: Home(l, |d|, b) ==> bc.View().contents[b] == v.contents[b]
    }

    method CopyRound(tail: nat, ghost d: Disk, ghost v: View, ghost before: Past) returns (ok: bool)
      requires Copied(d, v, before, tail) && tail < n
      modifies bc
      ensures ok ==> Copied(d, v, before, tail + 1) && n < NBUF
      ensures !ok ==> Wrote(d, Logged(v, List()), List(), before, tail)
      ensures old(bc.others) == [] ==> (ok <==> CanFetchBoth(old(bc.View()), LogBlock(l, tail), block[tail]))
      ensures old(bc.others) == [] && ok ==> bc.others == [] && bc.View().busy == old(bc.View()).busy
    {
      hide CommitShape, CommitDisk, CacheInv, Linked, OthersClean, Distinct, ViewOf, Starved, Spared, Adds;
      ghost var h := List();
      ListedBlocks(l, |d|, h);
      assert h[tail] == block[tail] && Home(l, |d|, h[tail]) && h[tail] in SetOf(h);
      hide SetOf;
      CommitNext(l, d, Logged(v, h), h, tail);
      ghost var was := bc.seen;
      ok := WriteLogBlock(tail);
      if ok {
        SparedCopy(h, before.seen, was, bc.seen, tail);
      }
    }

    /** write_log: k blocks are written, all of them if ok. */
    method WriteLog() returns (ok: bool, ghost k: nat)
      requires Valid() && bc.mine == {}
      modifies bc
      ensures k <= n && Wrote(old(bc.disk), old(Logged(bc.View(), List())), List(), old(Now()), k)
      ensures ok <==> k == n
      ensures ok ==> Copied(old(bc.disk), old(bc.View()), old(Now()), n)
      ensures k > 0 ==> n < NBUF
      ensures old(bc.others) == [] ==> (ok <==> CanCopyAll(l, old(bc.View()), List(), n))
      ensures old(bc.others) == [] && ok ==> bc.others == [] && bc.View().busy == old(bc.View()).busy
    {
      hide CommitShape, CommitDisk, CommitTrace, CacheInv, Linked, OthersClean, ViewOf, Distinct, CanFetchBoth, SetOf;
      ghost var d, v, before := bc.disk, bc.View(), Now();
      CommitStarts(before.trace, l, d, v, List());
      SparedNone(List(), bc.seen);
      var tail := 0;
      while tail < n
        invariant tail <= n && Copied(d, v, before, tail) && (tail > 0 ==> n < NBUF)
        invariant old(bc.others) == [] ==> bc.others == [] && bc.View().busy == v.busy && CanCopyAll(l, v, List(), tail)
      {
        ghost var u := bc.View();
        ok := CopyRound(tail, d, v, before);
        SameRoom(u, v, LogBlock(l, tail), block[tail]);
        if !ok {
          return false, tail;
        }
        tail := tail + 1;
      }
      return true, n;
    }

    /** k blocks of the list have been copied from the log to their homes and unpinned. */
    ghost predicate Installed(d: Disk, v: View, before: Past, k: nat)
      reads this, bc
    {
      && Ready() && bc.mine == {} && k <= n && bc.View().dirty == Unpin(v.dirty, List(), k)
      && Moved(d, v, before, k)
    }

    ghost predicate Moved(d: Disk, v: View, before: Past, k: nat)
      reads this, bc
    {
      && n <= |block| && k <= n && |bc.disk| == |d| && Fits(l, d) && GoodList(l, |d|, List())
      && bc.disk == InstallDisk(l, d, List(), k) && bc.trace == InstallTrace(before.trace, l, d, List(), k)
      && SparedMoving(v.dirty, List(), before.seen, bc.seen, k)
    }

    method InstallRound(tail: nat, ghost d: Disk, ghost v: View, ghost before: Past) returns (ok: bool)
      requires Installed(d, v, before, tail) && tail < n && LogBlock(l, tail) !in v.dirty
      modifies bc
      ensures ok ==> Installed(d, v, before, tail + 1)
      ensures !ok ==> Moved(d, v, before, tail)
      ensures old(bc.others) == [] ==> (ok <==> CanFetchBoth(old(bc.View()), LogBlock(l, tail), block[tail]))
      ensures old(bc.others) == [] && ok ==> bc.others == [] && bc.View().busy == old(bc.View()).busy
    {
      hide CacheInv, Linked, OthersClean, ViewOf, Distinct, Starved, Home, SparedMoving, Adds;
      assert List()[tail] == block[tail];
      InstallNext(l, d, List(), tail);
      ghost var was := bc.seen;
      ok := InstallBlock(tail);
      if ok {
        MovingNext(v.dirty, List(), before.seen, was, bc.seen, tail);
      }
    }

    /** install_trans: k blocks are copied, all of them if ok. */
    method InstallTrans() returns (ok: bool, ghost k: nat)
      requires Ready() && bc.mine == {} && forall t :: 0 <= t < n ==> LogBlock(l, t) !in bc.View().dirty
      modifies bc
      ensures Moved(old(bc.disk), old(bc.View()), old(Now()), k) && (ok <==> k == n)
      ensures ok ==> Installed(old(bc.disk), old(bc.View()), old(Now()), n)
      ensures old(bc.others) == [] ==> (ok <==> CanInstallAll(l, old(bc.View()), List(), n))
      ensures old(bc.others) == [] && ok ==> bc.others == [] && bc.View().busy == old(bc.View()).busy
    {
      hide CacheInv, Linked, OthersClean, ViewOf, Distinct, Starved, Home;
      ghost var d, v, before := bc.disk, bc.View(), Now();
      MovingNone(v.dirty, List(), bc.seen);
      assert Installed(d, v, before, 0);
      var tail := 0;
      while tail < n
        invariant tail <= n && Installed(d, v, before, tail)
        invariant old(bc.others) == [] ==> bc.others == [] && bc.View().busy == v.busy && CanInstallAll(l, v, List(), tail)
      {
        ghost var u := bc.View();
        ok := InstallRound(tail, d, v, before);
        SameRoom(u, v.(dirty := Unpin(v.dirty, List(), tail)), LogBlock(l, tail), block[tail]);
        if !ok {
          return false, tail;
        }
        tail := tail + 1;
      }
      return true, n;
    }

    /** read_head, at boot. */
    method ReadHead()
      requires bc.Valid() && Unused(bc) && GoodDisk(l, bc.disk) && |block| == LOGSIZE
      modifies this`n, this`block, bc
      ensures Ready() && Unused(bc) && List() == OnDisk(l, bc.disk)
      ensures bc.disk == old(bc.disk) && bc.trace == old(bc.trace)
    {
      hide CacheInv, Linked, ViewOf, OthersClean;
      UnheldReadsDisk(bc.Model(), {}, l.start);
      var r := bc.Bread(l.start);
      var head := bc.bufs[r.i].data;
      bc.Brelse(r.i);
      n, block := CopyHead(head);
      assert List() == DecodeHead(head);
    }

    /** read_head's loop. */
    method CopyHead(head: Block) returns (m: nat, blocks: seq<Word>)
      requires |block| == LOGSIZE && WordAt(head, 0) <= LOGSIZE
      ensures |blocks| == LOGSIZE && m <= LOGSIZE && blocks[..m] == DecodeHead(head)
    {
      m := WordAt(head, 0);
      blocks := block;
      for k := 0 to m
        invariant |blocks| == LOGSIZE
        invariant forall j :: 0 <= j < k ==> blocks[j] == WordAt(head, j + 1)
      {
        blocks := blocks[k := WordAt(head, k + 1)];
      }
    }

    /** The common end of recovery and commit: copy the log home, then erase it; k block writes, all of them if ok. */
    method ApplyLog() returns (ok: bool, ghost k: nat)
      requires Ready() && bc.mine == {} && bc.View().dirty <= SetOf(List())
      modifies this`n, bc
      ensures ok <==> k == old(n) + 1
      ensures !ok ==> k <= old(n) && bc.disk == InstallDisk(l, old(bc.disk), old(List()), k)
                      && bc.trace == InstallTrace(old(bc.trace), l, old(bc.disk), old(List()), k)
      ensures SparedMoving(old(bc.View()).dirty, old(List()), old(bc.seen), bc.seen, k)
      ensures ok ==> Valid() && n == 0 && bc.mine == {} && bc.View().dirty == {}
      ensures ok ==> var p := InstallDisk(l, old(bc.disk), old(List()), old(n));
                     && bc.disk == p[l.start := EncodeHead(p[l.start], [])]
                     && bc.trace == InstallTrace(old(bc.trace), l, old(bc.disk), old(List()), old(n)) + [bc.disk]
      ensures old(bc.others) == [] ==>
                (ok <==> CanInstallAll(l, old(bc.View()), old(List()), old(n)) && CanFetch(old(bc.View()).(dirty := {}), l.start))
      ensures old(bc.others) == [] && ok ==> bc.others == [] && bc.View().busy == old(bc.View()).busy
    {
      hide CacheInv, Linked, ViewOf, OthersClean, GoodList, SetOf, EncodeHead, Starved, SparedMoving, Adds;
      InstallEnds(l, |bc.disk|, List(), bc.View().dirty);
      ghost var v := bc.View();
      ok, k := InstallTrans();
      if !ok {
        return;
      }
      ghost var u := bc.View();
      SameFetch(u, v.(dirty := {}), l.start);
      ghost var h, was := List(), bc.seen;
      ok := EraseLog();
      if ok {
        MovingLast(v.dirty, h, old(bc.seen), was, bc.seen);
      }
      k := if ok then k + 1 else k;
    }

    /** log.lh.n = 0; write_head() */
    method EraseLog() returns (ok: bool)
      requires Ready() && bc.mine == {} && bc.View().dirty == {}
      modifies this`n, bc
      ensures n == 0
      ensures ok ==> Valid() && bc.mine == {} && bc.View().dirty == {}
                     && bc.disk == old(bc.disk)[l.start := EncodeHead(old(bc.disk)[l.start], [])] && bc.trace == old(bc.trace) + [bc.disk]
                     && Adds(old(bc.seen), bc.seen, {})
      ensures !ok ==> bc.disk == old(bc.disk) && bc.trace == old(bc.trace) && bc.seen == old(bc.seen)
      ensures old(bc.others) == [] ==> bc.others == [] && bc.View().busy == old(bc.View()).busy && (ok <==> CanFetch(old(bc.View()), l.start))
    {
      hide CacheInv, Linked, ViewOf, OthersClean, EncodeHead, Starved;
      n := 0;
      ok := WriteHead();
    }

    /** recover_from_log, at boot. */
    method Recover()
      requires bc.Valid() && Unused(bc) && GoodDisk(l, bc.disk) && |block| == LOGSIZE
      modifies this`n, this`block, bc
      ensures Valid() && n == 0 && Unused(bc)
      ensures bc.disk == Recovered(l, old(bc.disk))
      ensures bc.trace == RecoveryTrace(old(bc.trace), l, old(bc.disk), |OnDisk(l, old(bc.disk))| + 1)
    {
      hide CacheInv, Linked, ViewOf, OthersClean, RecoveryShape, RecoveryDisk, RecoveryTrace, EncodeHead, DecodeHead, InstallDisk, InstallTrace;
      ghost var d := bc.disk;
      ReadHead();
      BootRoom(l, bc.disk, bc.View(), List());
      var ok;
      ghost var k;
      ok, k := ApplyLog();
      RecoveredIs(old(bc.trace), l, d);
    }

    /** The first half of commit, up to the header write that makes the transaction durable. */
    method SealLog() returns (ok: bool, ghost k: nat)
      requires Valid() && bc.mine == {} && n > 0
      modifies bc
      ensures k <= n + 1 && Wrote(old(bc.disk), old(Logged(bc.View(), List())), List(), old(Now()), k)
      ensures ok <==> k == n + 1
      ensures ok ==> Valid() && bc.mine == {}
      ensures k > 0 ==> n < NBUF
      ensures old(bc.others) == [] ==>
                (ok <==> CanCopyAll(l, old(bc.View()), List(), n) && CanFetch(old(bc.View()), l.start))
      ensures old(bc.others) == [] && ok ==> bc.others == [] && bc.View().busy == old(bc.View()).busy && bc.View().dirty == old(bc.View()).dirty
    {
      hide CommitShape, CommitDisk, CacheInv, Linked, ViewOf, OthersClean, EncodeHead, Starved, Spared, Adds;
      ghost var d, h, v := bc.disk, List(), bc.View();
      ListedBlocks(l, |d|, h);
      ok, k := WriteLog();
      if !ok {
        return;
      }
      ghost var u := bc.View();
      SameFetch(u, v, l.start);
      CommitNext(l, d, Logged(v, h), h, |h|);
      ghost var was := bc.seen;
      ok := WriteHead();
      if ok {
        SparedCopy(h, old(bc.seen), was, bc.seen, |h|);
      }
      k := if ok then k + 1 else k;
    }

    /**
     commit. Whatever readers do meanwhile, its k block writes are the first k of a commit, all of
     them if ok; it then ends with an empty list and nothing pinned. If everybody else stands still
     it succeeds exactly if a buffer is to spare and no block that it needs is held.
     */
    method Commit() returns (ok: bool, ghost k: nat)
      requires Valid() && bc.mine == {}
      modifies this`n, bc
      ensures Wrote(old(bc.disk), old(Logged(bc.View(), List())), old(List()), old(Now()), k)
      ensures ok <==> k == CommitLength(old(n))
      ensures ok ==> Valid() && n == 0 && bc.mine == {}
      ensures k > 0 ==> old(n) < NBUF
      ensures old(bc.others) == [] ==> (ok <==> old(n) == 0 || CanSeal(l, old(bc.View()), old(List())))
    {
      hide CommitShape, CommitDisk, CommitTrace, InstallDisk, InstallTrace, CacheInv, Linked, ViewOf, OthersClean, EncodeHead, SetOf, Starved, Spared, SparedMoving;
      ghost var d, h, v := bc.disk, List(), bc.View();
      ListedBlocks(l, |d|, h);
      CommitStarts(old(bc.trace), l, d, v, h);
      SparedNone(h, bc.seen);
      SealRoom(l, |d|, v, h);
      if n == 0 {
        return true, 0;
      }
      ok, k := SealLog();
      if !ok {
        return;
      }
      ghost var u := bc.View();
      SameInstall(l, u, v, h);
      SameFetch(u.(dirty := {}), v.(dirty := {}), l.start);
      ghost var m;
      ghost var was := bc.seen;
      ok, m := ApplyLog();
      SparedMove(h, old(bc.seen), was, bc.seen, m);
      k := k + m;
      CommitEnds(old(bc.trace), l, d, Logged(v, h), h);
      if !ok {
        InstallInCommit(l, d, Logged(v, h), h, m);
        InstallTraceInCommit(old(bc.trace), l, d, Logged(v, h), h, m);
      }
    }
  }

  // ------------------------------------------- the buffers that readers leave

  /** One more block write, beside which the pinned blocks and those that others held left a buffer. */
  ghost predicate Adds(was: seq<set<nat>>, now: seq<set<nat>>, pinned: set<nat>) {
    |now| == |was| + 1 && was <= now && |pinned + now[|was|]| < NBUF
  }

  /** At each of the first k block writes of a commit there was such a buffer. */
  ghost predicate Spared(h: seq<nat>, was: seq<set<nat>>, now: seq<set<nat>>, k: nat) {
    was <= now && |now| == |was| + k && forall m :: 0 <= m < k ==> |GroupCommit.Pinned(h, m) + now[|was| + m]| < NBUF
  }

  /** What is still pinned when t blocks have been copied home. */
  ghost function PinsAt(dirty: set<nat>, h: seq<nat>, t: nat): set<nat> {
    Unpin(dirty, h, if t < |h| then t else |h|)
  }

  /** The same for the copying home of h, with `dirty` pinned at first, and the erasing of the log. */
  ghost predicate SparedMoving(dirty: set<nat>, h: seq<nat>, was: seq<set<nat>>, now: seq<set<nat>>, k: nat) {
    && was <= now && |now| == |was| + k && k <= |h| + 1
    && forall t :: 0 <= t < k ==> |PinsAt(dirty, h, t) + now[|was| + t]| < NBUF
  }

  lemma SparedNone(h: seq<nat>, seen: seq<set<nat>>)
    ensures Spared(h, seen, seen, 0)
  {
  }

  lemma MovingNone(dirty: set<nat>, h: seq<nat>, seen: seq<set<nat>>)
    ensures SparedMoving(dirty, h, seen, seen, 0)
  {
  }

  lemma SparedCopy(h: seq<nat>, was: seq<set<nat>>, mid: seq<set<nat>>, now: seq<set<nat>>, k: nat)
    requires Spared(h, was, mid, k) && Adds(mid, now, SetOf(h)) && k <= |h|
    ensures Spared(h, was, now, k + 1)
  {
    hide SetOf;
    forall m | 0 <= m < k
      ensures |GroupCommit.Pinned(h, m) + now[|was| + m]| < NBUF
    {
      assert now[|was| + m] == mid[|was| + m];
    }
  }

  lemma MovingNext(dirty: set<nat>, h: seq<nat>, was: seq<set<nat>>, mid: seq<set<nat>>, now: seq<set<nat>>, k: nat)
    requires SparedMoving(dirty, h, was, mid, k) && k < |h| && Adds(mid, now, Unpin(dirty, h, k))
    ensures SparedMoving(dirty, h, was, now, k + 1)
  {
    hide Unpin;
    forall t | 0 <= t < k
      ensures |PinsAt(dirty, h, t) + now[|was| + t]| < NBUF
    {
      assert now[|was| + t] == mid[|was| + t];
    }
  }

  lemma MovingLast(dirty: set<nat>, h: seq<nat>, was: seq<set<nat>>, mid: seq<set<nat>>, now: seq<set<nat>>)
    requires SparedMoving(dirty, h, was, mid, |h|) && Adds(mid, now, {}) && Unpin(dirty, h, |h|) == {}
    ensures SparedMoving(dirty, h, was, now, |h| + 1)
  {
    hide Unpin;
    forall t | 0 <= t < |h|
      ensures |PinsAt(dirty, h, t) + now[|was| + t]| < NBUF
    {
      assert now[|was| + t] == mid[|was| + t];
    }
  }

  /** Unpinned one by one, the listed blocks are those that the protocol calls pinned. */
  lemma PinnedIs(h: seq<nat>, t: nat)
    requires Distinct(h) && t <= |h|
    ensures Unpin(SetOf(h), h, t) == GroupCommit.Pinned(h, |h| + 1 + t)
  {
    UnpinIs(SetOf(h), h, t);
    assert SetOf(h) - SetOf(h[..t]) == SetOf(h[t..]) by {
      assert h == h[..t] + h[t..];
    }
  }

  lemma SparedMove(h: seq<nat>, was: seq<set<nat>>, mid: seq<set<nat>>, now: seq<set<nat>>, m: nat)
    requires Spared(h, was, mid, |h| + 1) && SparedMoving(SetOf(h), h, mid, now, m) && Distinct(h)
    ensures Spared(h, was, now, |h| + 1 + m)
  {
    hide SetOf, Unpin, Distinct;
    forall k | 0 <= k < |h| + 1 + m
      ensures |GroupCommit.Pinned(h, k) + now[|was| + k]| < NBUF
    {
      if k <= |h| {
        assert now[|was| + k] == mid[|was| + k];
      } else {
        var t := k - |h| - 1;
        assert |PinsAt(SetOf(h), h, t) + now[|mid| + t]| < NBUF;
        PinnedIs(h, t);
      }
    }
  }

  /** Nobody holds or has pinned a block, or will. */
  ghost predicate Unused(bc: BufferCache)
    reads bc
  {
    bc.mine == {} && bc.others == [] && bc.View().busy == {} && bc.View().dirty == {}
  }

  /** Contents do not matter for room. */
  lemma SameRoom(u: View, v: View, n: nat, m: nat)
    ensures u.dirty == v.dirty && u.busy == v.busy ==> (CanFetchBoth(u, n, m) <==> CanFetchBoth(v, n, m))
  {
  }

  lemma SameFetch(u: View, v: View, n: nat)
    ensures u.dirty == v.dirty && u.busy == v.busy ==> (CanFetch(u, n) <==> CanFetch(v, n))
  {
  }

  lemma SameInstall(l: Layout, u: View, v: View, h: seq<nat>)
    ensures u.dirty == v.dirty && u.busy == v.busy ==> (CanInstallAll(l, u, h, |h|) <==> CanInstallAll(l, v, h, |h|))
  {
    if u.dirty == v.dirty && u.busy == v.busy {
      forall t: nat | t < |h|
        ensures CanFetchBoth(u.(dirty := Unpin(u.dirty, h, t)), LogBlock(l, t), h[t]) <==> CanFetchBoth(v.(dirty := Unpin(v.dirty, h, t)), LogBlock(l, t), h[t])
      {
        SameRoom(u.(dirty := Unpin(u.dirty, h, t)), v.(dirty := Unpin(v.dirty, h, t)), LogBlock(l, t), h[t]);
      }
    }
  }

  /** At boot there are buffers for everything. */
  lemma BootRoom(l: Layout, d: Disk, v: View, h: seq<nat>)
    requires v.busy == {} && v.dirty == {} && Fits(l, d) && GoodList(l, |d|, h)
    ensures CanInstallAll(l, v, h, |h|) && CanFetch(v.(dirty := {}), l.start)
  {
    forall t: nat | t < |h|
      ensures CanFetchBoth(v.(dirty := Unpin(v.dirty, h, t)), LogBlock(l, t), h[t])
    {
      ListedIsHome(l, d, h, t);
      assert v.dirty + v.busy == {};
      FetchBoth(v, Unpin(v.dirty, h, t), LogBlock(l, t), h[t]);
    }
    assert v.dirty + v.busy == {};
  }

  /** The rounds of a commit find their buffers exactly if CanSeal. */
  lemma SealRoom(l: Layout, blocks: nat, v: View, h: seq<nat>)
    requires GoodList(l, blocks, h) && v.dirty == SetOf(h)
    ensures h != [] ==> (CanSeal(l, v, h) <==> CanCopyAll(l, v, h, |h|) && CanFetch(v, l.start) && CanInstallAll(l, v, h, |h|) && CanFetch(v.(dirty := {}), l.start))
  {
    ListedBlocks(l, blocks, h);
    if h != [] {
      if CanSeal(l, v, h) {
        SealRooms(l, blocks, v, h);
      }
      if CanCopyAll(l, v, h, |h|) && CanFetch(v, l.start) {
        assert CanFetchBoth(v, LogBlock(l, 0), h[0]);
        forall t: nat | t < |h|
          ensures LogBlock(l, t) !in v.busy && h[t] !in v.busy
        {
          assert CanFetchBoth(v, LogBlock(l, t), h[t]);
        }
      }
    }
  }

  lemma SealRooms(l: Layout, blocks: nat, v: View, h: seq<nat>)
    requires GoodList(l, blocks, h) && v.dirty == SetOf(h) && CanSeal(l, v, h)
    ensures CanCopyAll(l, v, h, |h|) && CanFetch(v, l.start) && CanInstallAll(l, v, h, |h|) && CanFetch(v.(dirty := {}), l.start)
  {
    forall t: nat | t < |h|
      ensures CanFetchBoth(v, LogBlock(l, t), h[t]) && CanFetchBoth(v.(dirty := Unpin(v.dirty, h, t)), LogBlock(l, t), h[t])
    {
      assert Home(l, blocks, h[t]) && h[t] in SetOf(h);
      FetchBoth(v, v.dirty, LogBlock(l, t), h[t]);
      UnpinIs(v.dirty, h, t);
      assert h[t] !in h[..t];
      FetchBoth(v, Unpin(v.dirty, h, t), LogBlock(l, t), h[t]);
    }
    SubsetSize({} + v.busy, v.dirty + v.busy);
  }

  // --------------------------------------------------- the protocol's steps

  /** The cached contents that the protocol knows are those in the buffers, apart from edits under way. */
  ghost predicate Agree(cache: map<nat, Block>, contents: Disk, h: seq<nat>, edited: set<nat>) {
    forall b :: b in h && b !in edited ==> b < |contents| && b in cache && cache[b] == contents[b]
  }

  lemma Agrees(cache: map<nat, Block>, contents: Disk, h: seq<Word>, edited: set<nat>, b: Word, data: Block)
    requires Agree(cache, contents, h, edited) && b < |contents| && contents[b] == data
    ensures Agree(cache[b := data], contents, GroupCommit.Absorb(h, b), edited - {b})
  {
  }

  lemma HeldContents(c: Cache, j: nat)
    requires CacheInv(c) && j < NBUF && c.bufs[j].busy && c.bufs[j].valid
    ensures CanDo(c, Mark(j)) && c.bufs[j].blockno < |ViewOf(c).contents| && ViewOf(c).contents[c.bufs[j].blockno] == c.bufs[j].data
  {
    LogicalCached(c, j);
  }

  lemma AbsorbSet(h: seq<Word>, b: Word)
    ensures SetOf(GroupCommit.Absorb(h, b)) == SetOf(h) + {b}
  {
  }

  /** log_write's update. */
  lemma LoggedStep(s: GroupCommit.State, i: nat, b: Word, data: Block)
    requires i < |s.procs| && s.procs[i].InOp? && s.procs[i].checked && Home(s.l, |s.disk|, b)
    ensures var a := GroupCommit.LogWrite(i, b, data);
            && GroupCommit.Enabled(s, a)
            && var s' := GroupCommit.Do(s, a);
               && s'.l == s.l && s'.outstanding == s.outstanding && s'.committing == s.committing && s'.disk == s.disk
               && s'.lh == GroupCommit.Absorb(s.lh, b) && s'.cache == s.cache[b := data]
               && (GroupCommit.Inv(s) && GroupCommit.Fresh(s, a) ==> GroupCommit.Inv(s') && GoodList(s.l, |s.disk|, s'.lh))
  {
    hide GroupCommit.Inv;
    var a := GroupCommit.LogWrite(i, b, data);
    if GroupCommit.Inv(s) && GroupCommit.Fresh(s, a) {
      GroupCommit.InvStep(s, a);
      GroupCommit.CommitIsPossible(GroupCommit.Do(s, a));
    }
  }

  /**
   The m-th block write of i's commit from s, with readers holding the blocks that hs says, is the
   protocol's, and the disk after it is LogCrash's.
   */
  ghost predicate IsCommitBlock(s: GroupCommit.State, i: nat, hs: seq<set<nat>>, m: nat) {
    && CanCommit(s.l, s.disk, s.cache, s.lh) && m <= 2 * |s.lh| + 2 && m <= |hs|
    && GroupCommit.CanRun(s, GroupCommit.CommitBlocks(i, hs[..m]))
    && GroupCommit.End(s, GroupCommit.CommitBlocks(i, hs[..m])).disk == CommitDisk(s.l, s.disk, s.cache, s.lh, m)
  }

  ghost function AfterCommit(s: GroupCommit.State, i: nat, hs: seq<set<nat>>): GroupCommit.State {
    var acts := GroupCommit.CommitBlocks(i, hs);
    if s.lh != [] && GroupCommit.CanRun(s, acts) then GroupCommit.End(s, acts) else s
  }

  lemma BlockOfCommit(s: GroupCommit.State, i: nat, hs: seq<set<nat>>, m: nat)
    requires GroupCommit.Inv(s) && i < |s.procs| && s.procs[i] == GroupCommit.Committing(0) && s.lh != []
    requires GroupCommit.Spares(s.lh, hs) && 0 < m <= |hs| <= 2 * |s.lh| + 2
    ensures IsCommitBlock(s, i, hs, m)
    ensures m == |hs| == 2 * |s.lh| + 2 ==>
              var e := AfterCommit(s, i, hs);
              && e.l == s.l && e.outstanding == s.outstanding && e.committing == s.committing && e.lh == []
              && e.disk == CommitDisk(s.l, s.disk, s.cache, s.lh, m)
  {
    hide GroupCommit.Inv, GroupCommit.CanRun, GroupCommit.End, GroupCommit.CommitBlocks, CommitDisk, CommitShape, CanCommit, GroupCommit.Pinned;
    assert GroupCommit.Spares(s.lh, hs[..m]);
    GroupCommit.CommitRun(s, i, hs[..m]);
    assert m == |hs| ==> hs[..m] == hs;
  }

  lemma CommitIsProtocol(s: GroupCommit.State, i: nat, was: seq<set<nat>>, now: seq<set<nat>>, k: nat)
    requires GroupCommit.Inv(s) && i < |s.procs| && s.procs[i] == GroupCommit.Committing(0)
    requires Spared(s.lh, was, now, k) && k <= CommitLength(|s.lh|)
    ensures forall m: nat :: 0 < m <= k ==> IsCommitBlock(s, i, now[|was|..], m)
    ensures var e := AfterCommit(s, i, now[|was|..]);
            k == CommitLength(|s.lh|) ==>
              && e.l == s.l && e.outstanding == s.outstanding && e.committing == s.committing && e.lh == []
              && CanCommit(s.l, s.disk, s.cache, s.lh) && e.disk == CommitDisk(s.l, s.disk, s.cache, s.lh, k)
  {
    hide GroupCommit.Inv, IsCommitBlock, CommitDisk, CommitShape, CanCommit, GroupCommit.Pinned;
    var hs := now[|was|..];
    GroupCommit.CommitIsPossible(s);
    if s.lh == [] {
      GroupCommit.CommitZero(s);
    } else {
      forall m | 0 <= m < |hs|
        ensures |GroupCommit.Pinned(s.lh, m) + hs[m]| < NBUF
      {
        assert hs[m] == now[|was| + m];
      }
      forall m: nat | 0 < m <= k
        ensures IsCommitBlock(s, i, hs, m)
      {
        BlockOfCommit(s, i, hs, m);
      }
      if k == CommitLength(|s.lh|) {
        BlockOfCommit(s, i, hs, k);
      }
    }
  }

  lemma {:induction false} SameDisk(l: Layout, d: Disk, c1: map<nat, Block>, c2: map<nat, Block>, h: seq<Word>, k: nat)
    requires CanCommit(l, d, c1, h) && CanCommit(l, d, c2, h) && k <= 2 * |h| + 2
    requires forall t :: 0 <= t < |h| ==> c1[h[t]] == c2[h[t]]
    ensures CommitDisk(l, d, c1, h, k) == CommitDisk(l, d, c2, h, k)
  {
    hide CommitShape, Distinct;
    if k > 0 {
      SameDisk(l, d, c1, c2, h, k - 1);
      CommitNext(l, d, c1, h, k - 1);
      CommitNext(l, d, c2, h, k - 1);
    }
  }

  lemma {:induction false} SameTrace(before: seq<Disk>, l: Layout, d: Disk, c1: map<nat, Block>, c2: map<nat, Block>, h: seq<Word>, k: nat)
    requires CanCommit(l, d, c1, h) && CanCommit(l, d, c2, h) && k <= 2 * |h| + 2
    requires forall t :: 0 <= t < |h| ==> c1[h[t]] == c2[h[t]]
    ensures CommitTrace(before, l, d, c1, h, k) == CommitTrace(before, l, d, c2, h, k) && CommitDisk(l, d, c1, h, k) == CommitDisk(l, d, c2, h, k)
  {
    hide CommitShape, Distinct, CommitDisk;
    SameDisk(l, d, c1, c2, h, k);
    if k > 0 {
      SameTrace(before, l, d, c1, c2, h, k - 1);
    }
  }
}
