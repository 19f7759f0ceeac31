/**
 Group commit (log.c): processes enter and leave file-system operations, log blocks and
 commit, in every interleaving, with a crash and reboot possible between any two steps.

 A step is what log.c does between two points where it holds no lock, except that the
 unlocked checks at the head of log_write are a step of their own and commit() is cut at
 every single-block disk write.
 */
module GroupCommit {
  import opened Basics
  import opened Blocks
  import opened LogCrash
  import CacheModel

  const NBUF: nat := CacheModel.NBUF

  datatype Process =
    | Outside
    | InOp(used: nat, checked: bool)  // log_write calls made; passed the checks of the next one
    | Committing(k: nat)              // block writes of commit() done

  datatype Event = Begun(i: nat) | Logged(i: nat, bno: nat, data: Block) | Ended(i: nat)

  /**
   The fields of `struct log`, the contents of the logged buffers, the disk, and history:
   the disk at boot, what operations did since, how much of it is durable, and the disk
   when the running commit started (the current disk if there is none). `held` are the blocks
   whose buffers are held by processes that read files outside any operation.
   */
  datatype State = State(
    l: Layout, procs: seq<Process>,
    outstanding: nat, committing: bool, lh: seq<Word>, cache: map<nat, Block>, disk: Disk,
    disk0: Disk, events: seq<Event>, safe: nat, base: Disk, held: set<nat>)

  datatype Action =
    | BeginOp(i: nat)
    | CheckLogWrite(i: nat)
    | LogWrite(i: nat, bno: Word, data: Block)
    | EndOp(i: nat)
    | CommitBlock(i: nat)
    | FinishCommit(i: nat)
    | Read(held: set<nat>)
    | Crash(ks: seq<nat>)

  // ------------------------------------------------------------- histories

  /** What the logged updates make of the disk, in order. */
  function Replay(d: Disk, es: seq<Event>): (e: Disk)
    ensures |e| == |d|
  {
    if es == [] then d
    else
      var p := Replay(d, es[..|es| - 1]);
      var ev := es[|es| - 1];
      if ev.Logged? && ev.bno < |d| then p[ev.bno := ev.data] else p
  }

  /** The processes inside an operation at the end of a history. */
  function Open(es: seq<Event>): set<nat> {
    if es == [] then {}
    else
      OpenThen(Open(es[..|es| - 1]), es[|es| - 1])
  }

  function OpenThen(p: set<nat>, ev: Event): set<nat> {
    if ev.Begun? then p + {ev.i} else if ev.Ended? then p - {ev.i} else p
  }

  lemma HistorySnoc(d: Disk, es: seq<Event>, ev: Event)
    ensures Replay(d, es + [ev]) ==
            if ev.Logged? && ev.bno < |d| then Replay(d, es)[ev.bno := ev.data] else Replay(d, es)
    ensures Open(es + [ev]) == OpenThen(Open(es), ev)
  {
    assert (es + [ev])[..|es|] == es;
  }

  // -------------------------------------------------------------- counting

  function OpCount(ps: seq<Process>): nat {
    if ps == [] then 0 else OpCount(ps[..|ps| - 1]) + (if ps[|ps| - 1].InOp? then 1 else 0)
  }

  function Unused(p: Process): nat {
    if p.InOp? && p.used <= MAXOPBLOCKS then MAXOPBLOCKS - p.used else 0
  }

  /** log_write calls that the operations in progress may still make. */
  function Budget(ps: seq<Process>): nat {
    if ps == [] then 0 else Budget(ps[..|ps| - 1]) + Unused(ps[|ps| - 1])
  }

  lemma {:induction false} Recount(ps: seq<Process>, i: nat, p: Process)
    requires i < |ps|
    ensures OpCount(ps[i := p]) + (if ps[i].InOp? then 1 else 0) == OpCount(ps) + (if p.InOp? then 1 else 0)
    ensures Budget(ps[i := p]) + Unused(ps[i]) == Budget(ps) + Unused(p)
    ensures OpCount(ps) >= if ps[i].InOp? then 1 else 0
    ensures Budget(ps) >= Unused(ps[i])
  {
    var n := |ps| - 1;
    if i == n {
      assert ps[i := p][..n] == ps[..n];
    } else {
      assert ps[i := p][..n] == ps[..n][i := p];
      Recount(ps[..n], i, p);
    }
  }

  lemma {:induction false} BudgetBound(ps: seq<Process>)
    ensures Budget(ps) <= MAXOPBLOCKS * OpCount(ps)
  {
    if ps != [] {
      BudgetBound(ps[..|ps| - 1]);
    }
  }

  lemma {:induction false} NobodyInside(ps: seq<Process>)
    ensures OpCount(ps) == 0 <==> forall i :: 0 <= i < |ps| ==> !ps[i].InOp?
    ensures OpCount(ps) == 0 ==> Budget(ps) == 0
  {
    if ps != [] {
      NobodyInside(ps[..|ps| - 1]);
      assert forall i :: 0 <= i < |ps| - 1 ==> ps[i] == ps[..|ps| - 1][i];
    }
  }

  // ----------------------------------------------------------------- steps

  ghost predicate Enabled(s: State, a: Action) {
    match a
    case BeginOp(i) =>
      && i < |s.procs| && s.procs[i] == Outside
      && !s.committing && |s.lh| + (s.outstanding + 1) * MAXOPBLOCKS <= LOGSIZE
    case CheckLogWrite(i) =>
      i < |s.procs| && s.procs[i].InOp? && !s.procs[i].checked && !LogWritePanics(s)
    case LogWrite(i, bno, _) =>
      && i < |s.procs| && s.procs[i].InOp? && s.procs[i].checked
      && Home(s.l, |s.disk|, bno)
    case EndOp(i) =>
      && i < |s.procs| && s.procs[i].InOp? && !s.procs[i].checked
      && s.outstanding >= 1 && !EndOpPanics(s)
    case CommitBlock(i) =>
      && i < |s.procs| && s.procs[i].Committing? && s.lh != []
      && Fits(s.l, s.disk) && |s.lh| <= LOGSIZE && |s.lh| < s.l.size
      && (forall t :: 0 <= t < |s.lh| ==> s.lh[t] in s.cache)
      && CommitWrite(s.l, s.disk, s.cache, s.lh, s.procs[i].k).bno < |s.disk|
      && HasBuffer(s, s.procs[i].k)
    case FinishCommit(i) =>
      i < |s.procs| && s.procs[i].Committing? && s.lh == []
    case Read(_) => true
    case Crash(_) =>
      GoodDisk(s.l, s.disk)
  }

  /** The listed blocks that are still pinned in the cache after k block writes of commit(). */
  ghost function Pinned(lh: seq<nat>, k: nat): set<nat> {
    if k <= |lh| then SetOf(lh) else SetOf(lh[if k <= 2 * |lh| then k - |lh| - 1 else |lh|..])
  }

  /** bget finds a buffer for the log block, or the header, of commit's next write. */
  ghost predicate HasBuffer(s: State, k: nat) {
    |Pinned(s.lh, k) + s.held| < NBUF
  }

  /** The unlocked checks of log_write. */
  predicate LogWritePanics(s: State) {
    |s.lh| >= LOGSIZE || |s.lh| >= s.l.size - 1 || s.outstanding < 1
  }

  predicate EndOpPanics(s: State) {
    s.committing
  }

  /** log_write's list update: absorb a block that is already listed, else append it. */
  function Absorb(lh: seq<Word>, b: Word): seq<Word> {
    if b in lh then lh else lh + [b]
  }

  ghost function Do(s: State, a: Action): State
    requires Enabled(s, a)
  {
    match a
    case BeginOp(i) =>
      s.(procs := s.procs[i := InOp(0, false)], outstanding := s.outstanding + 1, events := s.events + [Begun(i)])
    case CheckLogWrite(i) =>
      s.(procs := s.procs[i := s.procs[i].(checked := true)])
    case LogWrite(i, bno, data) =>
      s.(procs := s.procs[i := InOp(s.procs[i].used + 1, false)],
         lh := Absorb(s.lh, bno), cache := s.cache[bno := data],
         events := s.events + [Logged(i, bno, data)])
    case EndOp(i) =>
      var last := s.outstanding == 1;
      s.(procs := s.procs[i := if last then Committing(0) else Outside],
         outstanding := s.outstanding - 1, committing := last,
         events := s.events + [Ended(i)])
    case CommitBlock(i) =>
      var k := s.procs[i].k;
      var d := Put(s.disk, CommitWrite(s.l, s.disk, s.cache, s.lh, k));
      if k < 2 * |s.lh| + 1 then
        s.(procs := s.procs[i := Committing(k + 1)], disk := d, safe := if k < |s.lh| then s.safe else |s.events|)
      else
        s.(procs := s.procs[i := Committing(k + 1)], disk := d, base := d, lh := [])
    case FinishCommit(i) =>
      s.(procs := s.procs[i := Outside], committing := false, safe := |s.events|)
    case Read(held) => s.(held := held)
    case Crash(ks) =>
      var d := Recovered(s.l, AfterCrashes(s.l, s.disk, ks));
      s.(procs := seq(|s.procs|, _ => Outside), outstanding := 0, committing := false, lh := [], cache := map[], held := {},
         disk := d, base := d, events := if s.safe <= |s.events| then s.events[..s.safe] else s.events)
  }

  ghost predicate Init(s: State) {
    && (forall i :: 0 <= i < |s.procs| ==> s.procs[i] == Outside)
    && s.outstanding == 0 && !s.committing && s.lh == [] && s.cache == map[]
    && GoodDisk(s.l, s.disk) && OnDisk(s.l, s.disk) == []
    && s.disk0 == s.disk == s.base && s.events == [] && s.safe == 0 && s.held == {}
  }

  // ------------------------------------------------------------- invariant

  /** Counters and phases. */
  ghost predicate Orderly(s: State) {
    && s.outstanding == OpCount(s.procs)
    && (s.committing ==> s.outstanding == 0)
    && (forall i :: 0 <= i < |s.procs| && s.procs[i].Committing? ==> s.committing)
    && (s.committing ==> exists i :: 0 <= i < |s.procs| && s.procs[i].Committing?)
    && (forall i, j :: 0 <= i < j < |s.procs| && s.procs[i].Committing? ==> !s.procs[j].Committing?)
    && (!s.committing && s.outstanding == 0 ==> s.lh == [] && s.safe == |s.events|)
  }

  /** Reservation: no operation is over its budget, and what they may still log fits with what is listed. */
  ghost predicate Reserved(s: State) {
    && (forall i :: 0 <= i < |s.procs| && s.procs[i].InOp? ==>
          s.procs[i].used + (if s.procs[i].checked then 1 else 0) <= MAXOPBLOCKS)
    && |s.lh| + Budget(s.procs) <= LOGSIZE
  }

  /** A process that enters log_write has made fewer than MAXOPBLOCKS calls in its operation. */
  ghost predicate InBudget(s: State, a: Action) {
    a.CheckLogWrite? && a.i < |s.procs| && s.procs[a.i].InOp? ==> s.procs[a.i].used < MAXOPBLOCKS
  }

  /** The history and the operations in progress agree; the durable part splits no operation. */
  ghost predicate Recorded(s: State) {
    && s.safe <= |s.events|
    && Open(s.events[..s.safe]) == {}
    && (forall i: nat :: i in Open(s.events) <==> i < |s.procs| && s.procs[i].InOp?)
  }

  /** The disk is where the first k writes of a commit bring it, and `safe` is what recovery restores. */
  ghost predicate Written(s: State, k: nat)
    requires CanCommit(s.l, s.base, s.cache, s.lh) && s.safe <= |s.events|
  {
    && CommitShape(s.l, s.base, s.cache, s.lh, k, s.disk)
    && SameHome(s.l, if k <= |s.lh| then s.base else Overlay(s.base, s.cache, s.lh), Replay(s.disk0, s.events[..s.safe]))
  }

  ghost predicate Stored(s: State)
    requires s.safe <= |s.events|
  {
    && CanCommit(s.l, s.base, s.cache, s.lh)
    && GoodDisk(s.l, s.base) && OnDisk(s.l, s.base) == []
    && |s.disk| == |s.base| == |s.disk0|
    && SameHome(s.l, Overlay(s.base, s.cache, s.lh), Replay(s.disk0, s.events))
    && (!s.committing || s.lh == [] ==> s.disk == s.base && Written(s, 0))
    && (forall i :: 0 <= i < |s.procs| && s.procs[i].Committing? && s.lh != [] ==>
          s.procs[i].k <= 2 * |s.lh| + 1 && Written(s, s.procs[i].k))
  }

  ghost predicate Inv(s: State) {
    Orderly(s) && Recorded(s) && Stored(s)
  }

  /** The unlocked check of log_write still holds when its update runs. */
  ghost predicate Fresh(s: State, a: Action) {
    a.LogWrite? ==> a.bno in s.lh || (|s.lh| < LOGSIZE && |s.lh| < s.l.size - 1)
  }

  lemma OrderlyOp(s: State, a: Action)
    requires Orderly(s) && Enabled(s, a)
    requires a.BeginOp? || a.CheckLogWrite? || a.LogWrite?
    ensures Orderly(Do(s, a))
  {
    var s' := Do(s, a);
    NobodyInside(s.procs);
    Recount(s.procs, a.i, s'.procs[a.i]);
    assert s'.procs[a.i].InOp?;
    NobodyInside(s'.procs);
  }

  lemma OrderlyEndOp(s: State, a: Action)
    requires Orderly(s) && Enabled(s, a) && a.EndOp?
    ensures Orderly(Do(s, a))
  {
    var s' := Do(s, a);
    Recount(s.procs, a.i, s'.procs[a.i]);
    if s'.committing {
      assert s'.procs[a.i].Committing?;
    }
  }

  lemma OrderlyCommit(s: State, a: Action)
    requires Orderly(s) && Enabled(s, a)
    requires a.CommitBlock? || a.FinishCommit?
    ensures Orderly(Do(s, a))
  {
    hide HasBuffer, CommitWrite, GoodDisk, Fits, Home;
    var s' := Do(s, a);
    Recount(s.procs, a.i, s'.procs[a.i]);
    if s'.committing {
      assert s'.procs[a.i].Committing?;
    }
  }

  lemma OrderlyCrash(s: State, a: Action)
    requires Orderly(s) && Recorded(s) && Enabled(s, a) && a.Crash?
    ensures Orderly(Do(s, a))
  {
    NobodyInside(Do(s, a).procs);
  }

  lemma RecordedEvent(s: State, s': State, ev: Event)
    requires Recorded(s) && s'.events == s.events + [ev] && s'.safe == s.safe
    requires ev.i < |s.procs| == |s'.procs| && s'.procs == s.procs[ev.i := s'.procs[ev.i]]
    requires ev.Begun? ==> s'.procs[ev.i].InOp?
    requires ev.Logged? ==> s.procs[ev.i].InOp? && s'.procs[ev.i].InOp?
    requires ev.Ended? ==> !s'.procs[ev.i].InOp?
    ensures Recorded(s')
  {
    HistorySnoc(s.disk0, s.events, ev);
    assert s'.events[..s'.safe] == s.events[..s.safe];
  }

  lemma RecordedOp(s: State, a: Action)
    requires Recorded(s) && Enabled(s, a)
    requires a.BeginOp? || a.LogWrite? || a.EndOp?
    ensures Recorded(Do(s, a))
  {
    hide Recorded;
    RecordedEvent(s, Do(s, a), Do(s, a).events[|s.events|]);
  }

  lemma RecordedCommit(s: State, a: Action)
    requires Orderly(s) && Recorded(s) && Enabled(s, a)
    requires a.CheckLogWrite? || a.CommitBlock? || a.FinishCommit?
    ensures Recorded(Do(s, a))
  {
    hide HasBuffer, CommitWrite, GoodDisk, Fits, Home;
    var s' := Do(s, a);
    if s'.safe == |s.events| && !a.CheckLogWrite? {
      NobodyInside(s.procs);
      assert s.events[..s'.safe] == s.events;
      assert Open(s.events) == {};
    }
  }

  lemma RecordedCrash(s: State, a: Action)
    requires Recorded(s) && Enabled(s, a) && a.Crash?
    ensures Recorded(Do(s, a))
  {
    assert Do(s, a).events[..s.safe] == s.events[..s.safe];
  }

  /** Entering or leaving an operation, or passing a check, changes no block. */
  lemma StoredSame(s: State, a: Action)
    requires Inv(s) && Enabled(s, a)
    requires a.BeginOp? || a.CheckLogWrite? || a.EndOp?
    ensures Stored(Do(s, a))
  {
    hide SameHome, GoodDisk, HasBuffer, CommitShape, Overlay;
    var s' := Do(s, a);
    NobodyInside(s.procs);
    if |s'.events| > |s.events| {
      HistorySnoc(s.disk0, s.events, s'.events[|s.events|]);
    }
    assert s'.events[..s'.safe] == s.events[..s.safe];
  }

  lemma AbsorbIsGood(l: Layout, blocks: nat, h: seq<Word>, b: Word)
    requires GoodList(l, blocks, h) && Home(l, blocks, b)
    requires b !in h ==> |h| < LOGSIZE && |h| + 1 < l.size
    ensures GoodList(l, blocks, Absorb(h, b))
  {
  }

  lemma OverlayAbsorb(d: Disk, cache: map<nat, Block>, h: seq<Word>, b: Word, data: Block)
    requires b < |d|
    requires forall t :: 0 <= t < |h| ==> h[t] in cache
    ensures Overlay(d, cache[b := data], Absorb(h, b)) == Overlay(d, cache, h)[b := data]
    ensures forall t :: 0 <= t < |Absorb(h, b)| ==> Absorb(h, b)[t] in cache[b := data]
  {
  }

  lemma SameHomePut(l: Layout, d: Disk, e: Disk, b: nat, data: Block)
    requires SameHome(l, d, e) && b < |d|
    ensures SameHome(l, d[b := data], e[b := data])
  {
  }

  lemma StartShape(l: Layout, d: Disk, cache: map<nat, Block>, h: seq<Word>)
    requires CanCommit(l, d, cache, h)
    ensures CommitShape(l, d, cache, h, 0, d)
  {
  }

  lemma StoredLogWrite(s: State, a: Action)
    requires Inv(s) && Enabled(s, a) && Fresh(s, a) && a.LogWrite?
    ensures Stored(Do(s, a))
  {
    hide CommitShape, SameHome, GoodDisk, Overlay, Replay;
    var s' := Do(s, a);
    assert !s.committing by {
      NobodyInside(s.procs);
    }
    AbsorbIsGood(s.l, |s.disk|, s.lh, a.bno);
    assert CanCommit(s.l, s.base, s'.cache, s'.lh);
    StartShape(s.l, s.base, s'.cache, s'.lh);
    HistorySnoc(s.disk0, s.events, s'.events[|s.events|]);
    OverlayAbsorb(s.base, s.cache, s.lh, a.bno, a.data);
    SameHomePut(s.l, Overlay(s.base, s.cache, s.lh), Replay(s.disk0, s.events), a.bno, a.data);
    assert s'.events[..s'.safe] == s.events[..s.safe];
  }

  /** One more block write of the commit: past the header write, recovery restores every update. */
  lemma WrittenStep(s: State, k: nat, d: Disk)
    requires s.safe <= |s.events| && CanCommit(s.l, s.base, s.cache, s.lh) && Written(s, k) && k < 2 * |s.lh| + 1
    requires d == Put(s.disk, CommitWrite(s.l, s.disk, s.cache, s.lh, k))
    requires |s.base| == |s.disk0| && SameHome(s.l, Overlay(s.base, s.cache, s.lh), Replay(s.disk0, s.events))
    ensures Written(s.(disk := d, safe := if k < |s.lh| then s.safe else |s.events|), k + 1)
  {
    CommitStepShape(s.l, s.base, s.cache, s.lh, k, s.disk);
    assert s.events[..|s.events|] == s.events;
  }

  lemma StoredCommitBlock(s: State, a: Action)
    requires Inv(s) && Enabled(s, a) && a.CommitBlock?
    requires s.procs[a.i].k < 2 * |s.lh| + 1
    ensures Stored(Do(s, a))
  {
    hide CommitShape, SameHome, GoodDisk, CanCommit, HasBuffer;
    var s' := Do(s, a);
    var k := s.procs[a.i].k;
    WrittenStep(s, k, s'.disk);
    assert Written(s', k + 1);
    assert forall j :: 0 <= j < |s.procs| && s'.procs[j].Committing? ==> j == a.i;
  }

  lemma StoredLastBlock(s: State, a: Action)
    requires Inv(s) && Enabled(s, a) && a.CommitBlock?
    requires s.procs[a.i].k == 2 * |s.lh| + 1
    ensures Stored(Do(s, a))
  {
    hide HasBuffer;
    var s' := Do(s, a);
    CommitStepShape(s.l, s.base, s.cache, s.lh, 2 * |s.lh| + 1, s.disk);
    CommitCompletes(s.l, s.base, s.cache, s.lh, s'.disk);
    assert Overlay(s'.base, s'.cache, s'.lh) == s'.base;
  }

  lemma StoredFinish(s: State, a: Action)
    requires Inv(s) && Enabled(s, a) && a.FinishCommit?
    ensures Stored(Do(s, a))
  {
    assert s.events[..|s.events|] == s.events;
    assert Overlay(s.base, s.cache, s.lh) == s.base;
  }

  ghost function CommitPoint(s: State): (k: nat)
    requires Inv(s)
    ensures s.lh != [] ==> k <= 2 * |s.lh| + 1
    ensures s.lh == [] ==> k == 0
    ensures Written(s, k)
  {
    if s.committing && s.lh != [] then
      var i :| 0 <= i < |s.procs| && s.procs[i].Committing?;
      s.procs[i].k
    else 0
  }

  lemma StoredCrash(s: State, a: Action)
    requires Inv(s) && Enabled(s, a) && a.Crash?
    ensures Stored(Do(s, a))
  {
    var s' := Do(s, a);
    CommitCut(s.l, s.base, s.cache, s.lh, CommitPoint(s), s.disk, a.ks);
    assert Overlay(s'.base, s'.cache, s'.lh) == s'.base;
    assert s'.events[..s'.safe] == s'.events == s.events[..s.safe];
  }

  lemma ReadKeeps(s: State, a: Action)
    requires Inv(s) && Enabled(s, a) && a.Read?
    ensures Inv(Do(s, a))
  {
    hide CommitShape, SameHome, GoodDisk, CanCommit, Overlay, Replay, Open, OpCount, Budget;
  }

  lemma InvStep(s: State, a: Action)
    requires Inv(s) && Enabled(s, a) && Fresh(s, a)
    ensures Inv(Do(s, a))
  {
    match a {
      case BeginOp(_) => OrderlyOp(s, a); RecordedOp(s, a); StoredSame(s, a);
      case CheckLogWrite(_) => OrderlyOp(s, a); RecordedCommit(s, a); StoredSame(s, a);
      case LogWrite(_, _, _) => OrderlyOp(s, a); RecordedOp(s, a); StoredLogWrite(s, a);
      case EndOp(_) => OrderlyEndOp(s, a); RecordedOp(s, a); StoredSame(s, a);
      case CommitBlock(i) =>
        OrderlyCommit(s, a); RecordedCommit(s, a);
        if s.procs[i].k < 2 * |s.lh| + 1 {
          StoredCommitBlock(s, a);
        } else {
          StoredLastBlock(s, a);
        }
      case FinishCommit(_) => OrderlyCommit(s, a); RecordedCommit(s, a); StoredFinish(s, a);
      case Read(_) => ReadKeeps(s, a);
      case Crash(_) => OrderlyCrash(s, a); RecordedCrash(s, a); StoredCrash(s, a);
    }
  }

  /** The counters and the history stay in order whatever the size of the log. */
  lemma OrderStep(s: State, a: Action)
    requires Orderly(s) && Recorded(s) && Enabled(s, a)
    ensures Orderly(Do(s, a)) && Recorded(Do(s, a))
  {
    hide Orderly, Recorded, Enabled;
    match a
    case BeginOp(_) => OrderlyOp(s, a); RecordedOp(s, a);
    case CheckLogWrite(_) => OrderlyOp(s, a); RecordedCommit(s, a);
    case LogWrite(_, _, _) => OrderlyOp(s, a); RecordedOp(s, a);
    case EndOp(_) => OrderlyEndOp(s, a); RecordedOp(s, a);
    case CommitBlock(_) => OrderlyCommit(s, a); RecordedCommit(s, a);
    case FinishCommit(_) => OrderlyCommit(s, a); RecordedCommit(s, a);
    case Read(_) => OrderlyRead(s, a);
    case Crash(_) => OrderlyCrash(s, a); RecordedCrash(s, a);
  }

  lemma OrderlyRead(s: State, a: Action)
    requires Orderly(s) && Recorded(s) && Enabled(s, a) && a.Read?
    ensures Orderly(Do(s, a)) && Recorded(Do(s, a))
  {
  }

  // ------------------------------------------------------------ whole runs

  ghost predicate CanRun(s: State, acts: seq<Action>)
    decreases |acts|
  {
    acts != [] ==> Enabled(s, acts[0]) && CanRun(Do(s, acts[0]), acts[1..])
  }

  ghost function End(s: State, acts: seq<Action>): State
    requires CanRun(s, acts)
    decreases |acts|
  {
    if acts == [] then s else End(Do(s, acts[0]), acts[1..])
  }

  /** Every log_write update of the run happens while its check still holds. */
  ghost predicate FreshRun(s: State, acts: seq<Action>)
    requires CanRun(s, acts)
    decreases |acts|
  {
    acts != [] ==> Fresh(s, acts[0]) && FreshRun(Do(s, acts[0]), acts[1..])
  }

  /** No operation of the run makes more than MAXOPBLOCKS calls of log_write. */
  ghost predicate WithinBudget(s: State, acts: seq<Action>)
    requires CanRun(s, acts)
    decreases |acts|
  {
    acts != [] ==> InBudget(s, acts[0]) && WithinBudget(Do(s, acts[0]), acts[1..])
  }

  lemma InitInv(s: State)
    requires Init(s)
    ensures Inv(s) && Reserved(s)
  {
    NobodyInside(s.procs);
    assert s.events[..s.safe] == [];
    assert Overlay(s.base, s.cache, s.lh) == s.base;
  }

  /**
   Log reservation: the space begin_op set aside covers every log_write within its
   operation's budget, so with more than LOGSIZE log blocks no check is ever out of date.
   */
  lemma Reservation(s: State, a: Action)
    requires Orderly(s) && Reserved(s) && Enabled(s, a) && InBudget(s, a)
    ensures Reserved(Do(s, a)) && (s.l.size > LOGSIZE ==> Fresh(s, a))
  {
    hide HasBuffer, CommitWrite, GoodDisk, Fits, Home;
    var s' := Do(s, a);
    if a.Crash? {
      NobodyInside(s'.procs);
    } else if !a.Read? {
      Recount(s.procs, a.i, s'.procs[a.i]);
      BudgetBound(s.procs);
    }
  }

  lemma {:induction false} RunKeepsInv(s: State, acts: seq<Action>)
    requires Inv(s) && CanRun(s, acts) && FreshRun(s, acts)
    ensures Inv(End(s, acts)) && End(s, acts).l == s.l && End(s, acts).disk0 == s.disk0
    decreases |acts|
  {
    hide Orderly, Recorded, Stored, Enabled;
    if acts != [] {
      InvStep(s, acts[0]);
      RunKeepsInv(Do(s, acts[0]), acts[1..]);
    }
  }

  /** Every block is listed once. */
  lemma DistinctStep(s: State, a: Action)
    requires Distinct(s.lh) && Enabled(s, a)
    ensures Distinct(Do(s, a).lh)
  {
    hide HasBuffer, CommitWrite, GoodDisk, Fits, Home;
  }

  /** The order of the protocol over every run, with a log of any size, and checks out of date or not. */
  lemma {:induction false} RunKeepsOrder(s: State, acts: seq<Action>)
    requires Orderly(s) && Recorded(s) && Distinct(s.lh) && CanRun(s, acts)
    ensures var e := End(s, acts); Orderly(e) && Recorded(e) && Distinct(e.lh) && e.l == s.l && e.disk0 == s.disk0
    decreases |acts|
  {
    hide Orderly, Recorded, Enabled, Distinct;
    if acts != [] {
      OrderStep(s, acts[0]);
      DistinctStep(s, acts[0]);
      RunKeepsOrder(Do(s, acts[0]), acts[1..]);
    }
  }

  /** Reservation over whole runs: it holds with a log of any size, checks out of date or not. */
  lemma {:induction false} BudgetSuffices(s: State, acts: seq<Action>)
    requires Orderly(s) && Recorded(s) && Reserved(s) && CanRun(s, acts) && WithinBudget(s, acts)
    ensures Reserved(End(s, acts)) && (s.l.size > LOGSIZE ==> FreshRun(s, acts))
    decreases |acts|
  {
    hide Orderly, Recorded, Enabled, Reserved, Fresh;
    if acts != [] {
      Reservation(s, acts[0]);
      OrderStep(s, acts[0]);
      BudgetSuffices(Do(s, acts[0]), acts[1..]);
    }
  }

  /**
   Crash consistency over every run: wherever a run stops, and however often recovery is
   interrupted, the recovered home blocks are exactly the replay of a prefix of the history
   that splits no operation; once no operation or commit is running, that is all of it.
   */
  lemma CrashConsistency(s0: State, acts: seq<Action>, ks: seq<nat>)
    requires Init(s0) && CanRun(s0, acts)
    requires FreshRun(s0, acts) || (s0.l.size > LOGSIZE && WithinBudget(s0, acts))
    ensures var s := End(s0, acts);
            && s.l == s0.l && s.safe <= |s.events| && Open(s.events[..s.safe]) == {}
            && GoodDisk(s.l, s.disk)
            && SameHome(s.l, Recovered(s.l, AfterCrashes(s.l, s.disk, ks)), Replay(s0.disk0, s.events[..s.safe]))
            && (s.outstanding == 0 && !s.committing ==> s.safe == |s.events|)
  {
    InitInv(s0);
    if !FreshRun(s0, acts) {
      BudgetSuffices(s0, acts);
    }
    RunKeepsInv(s0, acts);
    var s := End(s0, acts);
    CommitCut(s.l, s.base, s.cache, s.lh, CommitPoint(s), s.disk, ks);
  }

  lemma SafeState(s: State, i: nat)
    requires Orderly(s) && i < |s.procs| && s.procs[i].InOp?
    ensures s.outstanding >= 1 && !EndOpPanics(s)
    ensures Reserved(s) && s.procs[i].used < MAXOPBLOCKS ==> |s.lh| < LOGSIZE && (s.l.size > LOGSIZE ==> !LogWritePanics(s))
  {
    Recount(s.procs, i, s.procs[i]);
  }

  /** All that can keep a committer from going on is want of a buffer. */
  lemma CommitGoesOn(s: State, i: nat)
    requires Inv(s) && i < |s.procs| && s.procs[i].Committing?
    ensures s.lh == [] ==> Enabled(s, FinishCommit(i))
    ensures s.lh != [] ==> (Enabled(s, CommitBlock(i)) <==> HasBuffer(s, s.procs[i].k))
  {
    hide Pinned;
  }

  /**
   Safety of the protocol over every run, with a log of any size: a commit excludes operations, the
   list names no block twice, end_op does not panic, and an idle log is empty, so that begin_op
   admits. Within budget the list plus what operations may still log fits LOGSIZE, so that the array
   holds it and the LOGSIZE half of log_write's check never fails; with more than LOGSIZE log blocks
   neither panic of log.c can then be reached.
   */
  lemma GroupCommitSafety(s0: State, acts: seq<Action>, i: nat)
    requires Init(s0) && CanRun(s0, acts)
    ensures var s := End(s0, acts);
            && (s.committing ==> s.outstanding == 0) && Distinct(s.lh)
            && (s.outstanding == 0 && !s.committing ==> s.lh == [])
            && (i < |s.procs| && s.procs[i].InOp? ==> !EndOpPanics(s))
            && (i < |s.procs| && s.procs[i].Outside? && s.outstanding == 0 && !s.committing ==> Enabled(s, BeginOp(i)))
            && (i < |s.procs| && s.procs[i].Committing? && s.lh == [] ==> Enabled(s, FinishCommit(i)))
            && (WithinBudget(s0, acts) ==>
                  && |s.lh| + Budget(s.procs) <= LOGSIZE
                  && (i < |s.procs| && s.procs[i].InOp? && s.procs[i].used < MAXOPBLOCKS ==>
                        |s.lh| < LOGSIZE && (s.l.size > LOGSIZE ==> !LogWritePanics(s))))
  {
    hide WithinBudget, CanRun, Stored;
    InitInv(s0);
    RunKeepsOrder(s0, acts);
    if WithinBudget(s0, acts) {
      BudgetSuffices(s0, acts);
    }
    var s := End(s0, acts);
    if i < |s.procs| && s.procs[i].InOp? {
      SafeState(s, i);
    }
  }

  /**
   As long as no check is acted on out of date, the list fits the log area, and a committer goes on
   exactly while the blocks still pinned and those held by readers leave a buffer.
   */
  lemma CommitterGoesOn(s0: State, acts: seq<Action>, i: nat)
    requires Init(s0) && CanRun(s0, acts)
    requires FreshRun(s0, acts) || (s0.l.size > LOGSIZE && WithinBudget(s0, acts))
    ensures var s := End(s0, acts);
            && |s.lh| <= LOGSIZE && |s.lh| < s.l.size
            && (i < |s.procs| && s.procs[i].Committing? && s.lh != [] ==>
                  (Enabled(s, CommitBlock(i)) <==> |Pinned(s.lh, s.procs[i].k) + s.held| < NBUF))
  {
    hide CommitShape, SameHome, GoodDisk, WithinBudget, FreshRun;
    InitInv(s0);
    if WithinBudget(s0, acts) {
      BudgetSuffices(s0, acts);
    }
    RunKeepsInv(s0, acts);
    var s := End(s0, acts);
    if i < |s.procs| && s.procs[i].Committing? {
      CommitGoesOn(s, i);
    }
  }

  // ------------------------------------------------------- one whole commit

  lemma {:induction false} RunAppend(s: State, a: seq<Action>, b: seq<Action>)
    requires CanRun(s, a) && CanRun(End(s, a), b)
    ensures CanRun(s, a + b) && End(s, a + b) == End(End(s, a), b)
    ensures WithinBudget(s, a + b) <==> WithinBudget(s, a) && WithinBudget(End(s, a), b)
    ensures FreshRun(s, a + b) <==> FreshRun(s, a) && FreshRun(End(s, a), b)
    decreases |a|
  {
    hide Do, Enabled, InBudget, Fresh;
    if a == [] {
      assert a + b == b;
    } else {
      RunAppend(Do(s, a[0]), a[1..], b);
      assert (a + b)[1..] == a[1..] + b;
    }
  }

  lemma RunOne(s: State, a: Action)
    requires Enabled(s, a)
    ensures CanRun(s, [a]) && End(s, [a]) == Do(s, a)
    ensures (WithinBudget(s, [a]) <==> InBudget(s, a)) && (FreshRun(s, [a]) <==> Fresh(s, a))
  {
    hide Do, Enabled, InBudget, Fresh;
    assert [a][1..] == [];
  }

  /** Block writes of process i's commit, before each of which readers come to hold the blocks that hs says. */
  function CommitBlocks(i: nat, hs: seq<set<nat>>): seq<Action> {
    if hs == [] then [] else CommitBlocks(i, hs[..|hs| - 1]) + ([Read(hs[|hs| - 1])] + [CommitBlock(i)])
  }

  /** Each time, the blocks still pinned and those held leave a buffer. */
  ghost predicate Spares(lh: seq<nat>, hs: seq<set<nat>>) {
    forall m :: 0 <= m < |hs| ==> |Pinned(lh, m) + hs[m]| < NBUF
  }

  /** e is s after k block writes of i's commit. */
  ghost predicate Committed(s: State, i: nat, k: nat, e: State)
    requires CanCommit(s.l, s.disk, s.cache, s.lh) && i < |s.procs| && k <= 2 * |s.lh| + 2
  {
    && Inv(e) && e.l == s.l && e.cache == s.cache && e.lh == (if k < 2 * |s.lh| + 2 then s.lh else [])
    && e.disk == CommitDisk(s.l, s.disk, s.cache, s.lh, k)
    && e.procs == s.procs[i := Committing(k)] && e.outstanding == s.outstanding && e.committing == s.committing
  }

  lemma CommitOne(s: State, i: nat, k: nat, e: State, held: set<nat>)
    requires CanCommit(s.l, s.disk, s.cache, s.lh) && i < |s.procs| && k < 2 * |s.lh| + 2 && s.lh != []
    requires Committed(s, i, k, e) && |Pinned(s.lh, k) + held| < NBUF
    ensures Enabled(e, Read(held))
    ensures var r := Do(e, Read(held)); Enabled(r, CommitBlock(i)) && Committed(s, i, k + 1, Do(r, CommitBlock(i)))
  {
    hide Do, Enabled, CommitShape, SameHome, Inv, CommitDisk, HasBuffer, Pinned, CanCommit;
    ReadStep(e, held);
    var r := Do(e, Read(held));
    CommitGoesOn(r, i);
    RoomIs(r, k);
    InvStep(r, CommitBlock(i));
    CommitNext(s.l, s.disk, s.cache, s.lh, k);
    CommitStep(r, i);
  }

  /** A commit among readers who leave it a buffer each time goes on, its block writes being those of LogCrash. */
  lemma {:induction false} CommitRun(s: State, i: nat, hs: seq<set<nat>>)
    requires Inv(s) && i < |s.procs| && s.procs[i] == Committing(0) && s.lh != [] && Spares(s.lh, hs)
    requires |hs| <= 2 * |s.lh| + 2
    ensures CanCommit(s.l, s.disk, s.cache, s.lh) && CanRun(s, CommitBlocks(i, hs))
    ensures Committed(s, i, |hs|, End(s, CommitBlocks(i, hs)))
    decreases |hs|
  {
    hide Do, Enabled, Inv, CommitDisk, CanCommit, Pinned, Committed, InBudget, Fresh;
    CommitIsPossible(s);
    if hs != [] {
      var k := |hs| - 1;
      assert Spares(s.lh, hs[..k]);
      CommitRun(s, i, hs[..k]);
      var e := End(s, CommitBlocks(i, hs[..k]));
      CommitOne(s, i, k, e, hs[k]);
      RunOne(e, Read(hs[k]));
      RunOne(Do(e, Read(hs[k])), CommitBlock(i));
      RunAppend(e, [Read(hs[k])], [CommitBlock(i)]);
      RunAppend(s, CommitBlocks(i, hs[..k]), [Read(hs[k])] + [CommitBlock(i)]);
    } else {
      CommitStart(s, i);
    }
  }

  lemma CommitStart(s: State, i: nat)
    requires Inv(s) && i < |s.procs| && s.procs[i] == Committing(0) && CanCommit(s.l, s.disk, s.cache, s.lh)
    ensures Committed(s, i, 0, s)
  {
    hide Inv;
    CommitZero(s);
  }

  lemma ReadStep(s: State, held: set<nat>)
    requires Inv(s)
    ensures Enabled(s, Read(held)) && Inv(Do(s, Read(held))) && Do(s, Read(held)) == s.(held := held) && Fresh(s, Read(held))
  {
    hide Inv;
    InvStep(s, Read(held));
  }

  lemma RoomIs(s: State, k: nat)
    requires |Pinned(s.lh, k) + s.held| < NBUF
    ensures HasBuffer(s, k)
  {
  }

  lemma CommitZero(s: State)
    requires CanCommit(s.l, s.disk, s.cache, s.lh)
    ensures CommitDisk(s.l, s.disk, s.cache, s.lh, 0) == s.disk
  {
  }

  lemma CommitIsPossible(s: State)
    requires Inv(s)
    ensures CanCommit(s.l, s.disk, s.cache, s.lh)
  {
  }

  /** Fewer than NBUF blocks leave a buffer as long as nobody else holds one. */
  lemma NobodyElse(lh: seq<nat>, k: nat)
    requires Distinct(lh) && |lh| < NBUF
    ensures Spares(lh, seq(k, _ => {}))
  {
    DistinctCount(lh);
    forall m | 0 <= m < k
      ensures |Pinned(lh, m) + {}| < NBUF
    {
      SubsetSize(Pinned(lh, m) + {}, SetOf(lh));
    }
  }

  lemma CommitStep(s: State, i: nat)
    requires Enabled(s, CommitBlock(i))
    ensures s.lh != [] && i < |s.procs| && s.procs[i].Committing? && Fits(s.l, s.disk) && |s.lh| <= LOGSIZE && |s.lh| < s.l.size
    ensures forall t :: 0 <= t < |s.lh| ==> s.lh[t] in s.cache
    ensures var e := Do(s, CommitBlock(i));
            && e.l == s.l && e.cache == s.cache && e.held == s.held && e.outstanding == s.outstanding && e.committing == s.committing
            && e.procs == s.procs[i := Committing(s.procs[i].k + 1)]
            && e.disk == Put(s.disk, CommitWrite(s.l, s.disk, s.cache, s.lh, s.procs[i].k))
            && e.lh == if s.procs[i].k < 2 * |s.lh| + 1 then s.lh else []
  {
  }
}
