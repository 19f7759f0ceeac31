/**
 Address spaces shared by clone: who points at which page directory (proc.c:128-167,
 216-255, 408-441, 503-539), over runs whose programs keep to the discipline below.
 */
module ProcShare {
  import opened ProcTable

  /** The process in slot p points at its page directory, rather than at whatever was there before. */
  predicate Holds(q: Proc) {
    Built(q) || (q.state == Embryo && q.parent != NOBODY)
  }

  predicate HolderOf(t: Table, p: nat, d: nat) {
    p < |t.procs| && Holds(t.procs[p]) && t.procs[p].pgdir == d
  }

  /**
   Clone children are joined by their creator before it waits or exits, and no process execs
   while its directory is shared. All of it is visible to the process that acts.
   */
  ghost predicate Disciplined(t: Table, a: Action) {
    match a
    case Wait(i) => forall c: nat :: !(ThreadOf(t, i, c) && Holds(t.procs[c]))
    case Exit(i) => forall c: nat :: !(ThreadOf(t, i, c) && Holds(t.procs[c]))
    case Exec(i, d) => i < |t.procs| && forall c: nat :: c != i ==> !HolderOf(t, c, t.procs[i].pgdir)
    case _ => true
  }

  // ----------------------------------------------------------- invariant

  /** A clone child shares its parent's directory, a fork child does not, and parents come first. */
  ghost predicate KindOk(t: Table, p: nat)
    requires |t.procs| == NPROC && p < NPROC
  {
    var q := t.procs[p];
    && (p == 0 ==> q.kind == First)
    && (Holds(q) && p != 0 ==>
          && q.kind != First && q.parent < NPROC && t.procs[q.parent].serial < q.serial && Holds(t.procs[q.parent])
          && (q.kind == Cloned <==> q.pgdir == t.procs[q.parent].pgdir))
    && (Holds(q) ==> q.pgdir in t.live)
  }

  /** One process at most has a directory that it did not get by clone. */
  ghost predicate OwnersDiffer(t: Table) {
    forall p: nat, q: nat :: p < q < |t.procs| && Holds(t.procs[p]) && Holds(t.procs[q]) && t.procs[p].kind != Cloned && t.procs[q].kind != Cloned
                             ==> t.procs[p].pgdir != t.procs[q].pgdir
  }

  ghost predicate AllHeld(t: Table) {
    forall d: nat :: d in t.live ==> exists p: nat :: HolderOf(t, p, d)
  }

  ghost predicate Shares(t: Table) {
    && Inv(t) && OwnersDiffer(t) && AllHeld(t)
    && forall p: nat :: p < NPROC ==> KindOk(t, p)
  }

  /** A zombie that was not cloned is the only process that points at its directory. */
  lemma {:induction false} Alone(t: Table, z: nat, q: nat)
    requires Shares(t) && z < NPROC && q < NPROC && q != z && t.procs[z].state == Zombie && t.procs[z].kind != Cloned && Holds(t.procs[q])
    ensures t.procs[q].pgdir != t.procs[z].pgdir
    decreases t.procs[q].serial
  {
    var k := t.procs[q];
    assert KindOk(t, q) && ParentOk(t, q) && MakeOk(t, q);
    if k.kind == Cloned {
      assert k.parent != z by {
        if k.state == Embryo {
          assert MakeOk(t, k.parent);
        }
      }
      Alone(t, z, k.parent);
    }
  }

  // -------------------------------------------------- each action keeps it

  /** Nothing that this invariant speaks of changes. */
  predicate SameHold(q: Proc, q': Proc) {
    Holds(q') == Holds(q) && (Holds(q) ==> q'.kind == q.kind && q'.serial == q.serial && q'.pgdir == q.pgdir && q'.parent == q.parent)
  }

  lemma InitHolds(t: Table)
    requires Inv(t)
    ensures Holds(t.procs[0]) && t.procs[0].parent == NOBODY
  {
    assert ParentOk(t, 0);
  }

  lemma HoldsKept(t: Table, t': Table)
    requires Shares(t) && Inv(t') && t'.live == t.live
    requires forall k: nat :: k < NPROC ==> SameHold(t.procs[k], t'.procs[k])
    ensures Shares(t')
  {
    hide ParentOk, MakeOk, SleepOk, SerialsOk, MakersDiffer;
    InitHolds(t);
    forall p: nat | p < NPROC
      ensures KindOk(t', p)
    {
      assert KindOk(t, p) && SameHold(t.procs[p], t'.procs[p]);
    }
    forall d: nat | d in t'.live
      ensures exists p: nat :: HolderOf(t', p, d)
    {
      var p: nat :| HolderOf(t, p, d);
      assert SameHold(t.procs[p], t'.procs[p]);
      assert HolderOf(t', p, d);
    }
  }

  lemma SimpleShares(t: Table, a: Action, t': Table)
    requires Shares(t) && Step(t, a, t') && Inv(t') && (a.Schedule? || a.Yield? || a.Sleep? || a.Wakeup? || a.Kill?)
    ensures Shares(t')
  {
    hide ParentOk, MakeOk, SleepOk, SerialsOk, MakersDiffer;
    forall k: nat | k < NPROC
      ensures SameHold(t.procs[k], t'.procs[k])
    {
    }
    HoldsKept(t, t');
  }

  lemma MakeShares(t: Table, a: Action, t': Table)
    requires Shares(t) && Step(t, a, t') && Inv(t') && (a.Alloc? || a.GiveUp? || a.Finish?)
    ensures Shares(t')
  {
    hide ParentOk, SleepOk, SerialsOk, MakersDiffer;
    assert MakeOk(t, a.i);
    forall k: nat | k < NPROC
      ensures SameHold(t.procs[k], t'.procs[k])
    {
      assert MakeOk(t, k);
    }
    HoldsKept(t, t');
  }

  /** Slot np becomes a holder, a child of i: by clone of i's directory, by fork of a new one. */
  lemma BuildShares(t: Table, i: nat, d: nat, t': Table)
    requires Shares(t) && Step(t, Build(i, d), t') && Inv(t')
    ensures Shares(t')
  {
    var np := t.procs[i].pc.np;
    assert MakeOk(t, i) && !Holds(t.procs[np]);
    hide ParentOk, MakeOk, SleepOk, MakersDiffer;
    BuildKinds(t, i, np, t');
    forall e: nat | e in t'.live
      ensures exists p: nat :: HolderOf(t', p, e)
    {
      if e in t.live {
        var p: nat :| HolderOf(t, p, e);
        assert HolderOf(t', p, e);
      } else {
        assert HolderOf(t', np, e);
      }
    }
  }

  lemma BuildKinds(t: Table, i: nat, np: nat, t': Table)
    requires Shares(t) && Inv(t') && i < NPROC && 0 < np < NPROC && i != np && !Holds(t.procs[np]) && t.procs[i].state == Running
    requires forall k: nat :: k < NPROC && k != i && k != np ==> t'.procs[k] == t.procs[k]
    requires t'.procs[i] == t.procs[i].(pc := t'.procs[i].pc)
    requires var q' := t'.procs[np];
             && Holds(q') && q'.parent == i && q'.serial == t.procs[np].serial && t.procs[i].serial < q'.serial
             && ((q'.kind == Cloned && q'.pgdir == t.procs[i].pgdir && t'.live == t.live)
                 || (q'.kind == Forked && q'.pgdir !in t.live && t'.live == t.live + {q'.pgdir}))
    ensures OwnersDiffer(t') && forall p: nat :: p < NPROC ==> KindOk(t', p)
  {
    hide ParentOk, MakeOk, SleepOk, SerialsOk, MakersDiffer;
    assert KindOk(t, i);
    forall p: nat | p < NPROC
      ensures KindOk(t', p)
    {
      assert KindOk(t, p);
      if p != np && p != 0 && Holds(t.procs[p]) {
        assert t.procs[p].parent != np;
      }
    }
    forall p: nat | p < NPROC && p != np && Holds(t'.procs[p])
      ensures t'.procs[p].pgdir in t.live
    {
      assert KindOk(t, p);
    }
  }

  /** exec, when no other process points at the old directory. */
  lemma ExecShares(t: Table, i: nat, d: nat, t': Table)
    requires Shares(t) && Step(t, Exec(i, d), t') && Inv(t') && Disciplined(t, Exec(i, d))
    ensures Shares(t')
  {
    hide ParentOk, MakeOk, SleepOk, SerialsOk, MakersDiffer;
    var was := t.procs[i].pgdir;
    assert KindOk(t, i);
    forall k: nat | k < NPROC && k != i && Holds(t.procs[k])
      ensures t.procs[k].pgdir in t.live && t.procs[k].pgdir != was
    {
      assert KindOk(t, k) && !HolderOf(t, k, was);
    }
    forall p: nat | p < NPROC
      ensures KindOk(t', p)
    {
      assert KindOk(t, p);
    }
    forall e: nat | e in t'.live
      ensures exists p: nat :: HolderOf(t', p, e)
    {
      if e == d {
        assert HolderOf(t', i, e);
      } else {
        var p: nat :| HolderOf(t, p, e);
        assert HolderOf(t', p, e);
      }
    }
  }

  /** The children that exit passes to init were not cloned from it, nor do they share init's directory. */
  lemma ExitShares(t: Table, i: nat, t': Table)
    requires Shares(t) && Step(t, Exit(i), t') && Inv(t') && Disciplined(t, Exit(i))
    ensures Shares(t')
  {
    forall k: nat | k < NPROC
      ensures ExitHold(t, i, k, t'.procs[k])
    {
      ExitHolds(t, i, t', k);
    }
    ExitSize(t, i, t');
    ExitKinds(t, i, t');
  }

  ghost predicate ExitHold(t: Table, i: nat, k: nat, q': Proc)
    requires k < |t.procs|
  {
    var q := t.procs[k];
    && Holds(q') == Holds(q) && q'.kind == q.kind && q'.serial == q.serial && q'.pgdir == q.pgdir
    && (Holds(q) ==> q'.parent == if q.parent == i then 0 else q.parent)
  }

  lemma ExitHolds(t: Table, i: nat, t': Table, k: nat)
    requires Inv(t) && Exits(t, i, t') && k < NPROC
    ensures ExitHold(t, i, k, t'.procs[k])
  {
    hide ParentOk, MakeOk, SleepOk, SerialsOk, MakersDiffer;
    assert t'.procs[k] == AfterExit(t, i, (exists b: nat :: ZombieChild(t, i, b)), k);
  }

  lemma ExitKinds(t: Table, i: nat, t': Table)
    requires Shares(t) && Inv(t') && 0 < i < NPROC && t'.live == t.live && forall k: nat :: k < NPROC ==> ExitHold(t, i, k, t'.procs[k])
    requires forall c: nat :: !(ThreadOf(t, i, c) && Holds(t.procs[c]))
    ensures Shares(t')
  {
    hide ParentOk, MakeOk, SleepOk, MakersDiffer;
    InitHolds(t);
    forall p: nat | p < NPROC
      ensures KindOk(t', p)
    {
      assert KindOk(t, p) && ExitHold(t, i, p, t'.procs[p]) && KindOk(t, 0);
      var q := t.procs[p];
      if Holds(q) && p != 0 {
        assert ExitHold(t, i, q.parent, t'.procs[q.parent]) && ExitHold(t, i, 0, t'.procs[0]);
        if q.parent == i {
          assert !ThreadOf(t, i, p);
          InitFirst(t, p);
        }
      }
    }
    assert OwnersDiffer(t');
    forall d: nat | d in t'.live
      ensures exists p: nat :: HolderOf(t', p, d)
    {
      var p: nat :| HolderOf(t, p, d);
      assert ExitHold(t, i, p, t'.procs[p]);
      assert HolderOf(t', p, d);
    }
  }

  /** init's serial number is the least. */
  lemma {:induction false} InitFirst(t: Table, p: nat)
    requires Shares(t) && 0 < p < NPROC && Holds(t.procs[p])
    ensures t.procs[0].serial < t.procs[p].serial
    decreases t.procs[p].serial
  {
    assert KindOk(t, p);
    var k := t.procs[p].parent;
    if k != 0 {
      InitFirst(t, k);
    }
  }

  /** A slot that held a directory lets go of it; if it was the last, the directory is freed. */
  lemma ReapShares(t: Table, i: nat, z: nat, t': Table)
    requires Shares(t) && Inv(t') && i < NPROC && z < NPROC && z != i && t.procs[z].state == Zombie && t.procs[i].state == Running
    requires t'.procs == t.procs[z := Reaped(t.procs[z])][i := t.procs[i].(pc := User)]
    requires if t.procs[z].kind == Cloned then t'.live == t.live && t.procs[z].pgdir == t.procs[i].pgdir else t'.live == t.live - {t.procs[z].pgdir}
    ensures Shares(t')
  {
    forall p: nat | p < NPROC
      ensures KindOk(t', p)
    {
      ReapKind(t, i, z, t', p);
    }
    hide ParentOk, MakeOk, SleepOk, SerialsOk, MakersDiffer;
    forall d: nat | d in t'.live
      ensures exists p: nat :: HolderOf(t', p, d)
    {
      var p: nat :| HolderOf(t, p, d);
      assert HolderOf(t', if p == z then i else p, d);
    }
  }

  lemma ReapKind(t: Table, i: nat, z: nat, t': Table, p: nat)
    requires Shares(t) && i < NPROC && z < NPROC && z != i && t.procs[z].state == Zombie && |t'.procs| == NPROC && p < NPROC
    requires t'.procs == t.procs[z := Reaped(t.procs[z])][i := t.procs[i].(pc := User)]
    requires if t.procs[z].kind == Cloned then t'.live == t.live else t'.live == t.live - {t.procs[z].pgdir}
    ensures KindOk(t', p)
  {
    assert KindOk(t, p);
    var q := t.procs[p];
    if p != z && Holds(q) {
      if t.procs[z].kind != Cloned {
        Alone(t, z, p);
      }
      assert q.parent != z by {
        assert ParentOk(t, p) && MakeOk(t, p) && MakeOk(t, z);
      }
    }
  }

  lemma WaitShares(t: Table, i: nat, t': Table)
    requires Shares(t) && Step(t, Wait(i), t') && Inv(t') && Disciplined(t, Wait(i))
    ensures Shares(t')
  {
    hide ParentOk, MakeOk, SleepOk, SerialsOk, MakersDiffer;
    if z: nat :| WaitReaps(t, i, z, t') {
      assert KindOk(t, z) && !ThreadOf(t, i, z) && z != 0 by { InitHolds(t); InitAlive(t); }
      ReapShares(t, i, z, t');
    } else {
      assert forall k: nat :: k < NPROC ==> SameHold(t.procs[k], t'.procs[k]);
      HoldsKept(t, t');
    }
  }

  lemma InitAlive(t: Table)
    requires Inv(t)
    ensures Alive(t.procs[0])
  {
    assert ParentOk(t, 0);
  }

  lemma JoinShares(t: Table, i: nat, t': Table)
    requires Shares(t) && Step(t, Join(i), t') && Inv(t')
    ensures Shares(t')
  {
    hide ParentOk, MakeOk, SleepOk, SerialsOk, MakersDiffer;
    if z: nat :| JoinReaps(t, i, z, t') {
      assert KindOk(t, z) && z != 0 by { InitAlive(t); }
      ReapShares(t, i, z, t');
    } else {
      assert forall k: nat :: k < NPROC ==> SameHold(t.procs[k], t'.procs[k]);
      HoldsKept(t, t');
    }
  }

  // ---------------------------------------------------------------- runs

  lemma SharesStep(t: Table, a: Action, t': Table)
    requires Shares(t) && Step(t, a, t') && Disciplined(t, a)
    ensures Shares(t')
  {
    InvStep(t, a, t');
    hide Shares, Inv;
    match a
    case Alloc(i, cloned) => MakeShares(t, a, t');
    case GiveUp(i) => MakeShares(t, a, t');
    case Finish(i) => MakeShares(t, a, t');
    case Build(i, d) => BuildShares(t, i, d, t');
    case Exec(i, d) => ExecShares(t, i, d, t');
    case Exit(i) => ExitShares(t, i, t');
    case Wait(i) => WaitShares(t, i, t');
    case Join(i) => JoinShares(t, i, t');
    case _ => SimpleShares(t, a, t');
  }

  lemma BootShares(d: nat)
    ensures Shares(Boot(d))
  {
    BootInv(d);
    var t := Boot(d);
    assert HolderOf(t, 0, d);
    assert forall k: nat :: 0 < k < NPROC ==> t.procs[k] == Empty();
  }

  ghost predicate SafeRun(ts: seq<Table>, acts: seq<Action>) {
    Run(ts, acts) && forall n: nat :: n < |acts| ==> Disciplined(ts[n], acts[n])
  }

  lemma {:induction false} RunShares(ts: seq<Table>, acts: seq<Action>, n: nat)
    requires SafeRun(ts, acts) && n < |ts|
    ensures Shares(ts[n])
  {
    hide Shares;
    if n == 0 {
      var d: nat :| ts[0] == Boot(d);
      BootShares(d);
    } else {
      RunShares(ts, acts, n - 1);
      SharesStep(ts[n - 1], acts[n - 1], ts[n]);
    }
  }

  /** Directory d is allocated, and nobody points at it once t' is reached. */
  ghost predicate FreedSafely(t: Table, d: nat, t': Table) {
    d in t.live && d !in t'.live && forall p: nat :: !HolderOf(t', p, d)
  }

  /** A directory that is not live has no holder. */
  lemma HoldersLive(t: Table, p: nat, d: nat)
    requires Shares(t) && HolderOf(t, p, d)
    ensures d in t.live
  {
    assert KindOk(t, p);
  }

  /**
   Over disciplined runs: the directories that wait and exec free are allocated ones to which
   no process points afterwards, so none is freed twice or in use; join reaps clone children only;
   and every directory allocated has a process, so none is lost.
   */
  lemma SharedSpaces(ts: seq<Table>, acts: seq<Action>, n: nat, i: nat)
    requires SafeRun(ts, acts) && n < |acts| && i < NPROC
    ensures |ts[n].procs| == |ts[n + 1].procs| == NPROC
    ensures acts[n] == Wait(i) ==> forall z: nat :: WaitReaps(ts[n], i, z, ts[n + 1]) ==>
              ts[n].procs[z].kind == Forked && FreedSafely(ts[n], ts[n].procs[z].pgdir, ts[n + 1])
    ensures acts[n] == Join(i) ==> forall z: nat :: JoinReaps(ts[n], i, z, ts[n + 1]) ==>
              ts[n].procs[z].kind == Cloned && ts[n + 1].live == ts[n].live
    ensures acts[n].Exec? && acts[n].i == i ==> FreedSafely(ts[n], ts[n].procs[i].pgdir, ts[n + 1])
    ensures forall d: nat :: d in ts[n].live <==> exists p: nat :: HolderOf(ts[n], p, d)
  {
    var t, t' := ts[n], ts[n + 1];
    RunShares(ts, acts, n);
    RunShares(ts, acts, n + 1);
    hide ParentOk, MakeOk, SleepOk, SerialsOk, MakersDiffer;
    forall d: nat, p: nat | HolderOf(t, p, d)
      ensures d in t.live
    {
      HoldersLive(t, p, d);
    }
    forall d: nat, p: nat | HolderOf(t', p, d)
      ensures d in t'.live
    {
      HoldersLive(t', p, d);
    }
    InitAlive(t);
    if acts[n] == Wait(i) {
      forall z: nat | WaitReaps(t, i, z, t')
        ensures t.procs[z].kind == Forked && FreedSafely(t, t.procs[z].pgdir, t')
      {
        assert KindOk(t, z) && !ThreadOf(t, i, z);
      }
    } else if acts[n] == Join(i) {
      forall z: nat | JoinReaps(t, i, z, t')
        ensures t.procs[z].kind == Cloned && t'.live == t.live
      {
        assert KindOk(t, z);
      }
    } else if acts[n].Exec? && acts[n].i == i {
      assert HolderOf(t, i, t.procs[i].pgdir);
    }
  }

  /**
   A wait that breaks the discipline: after any disciplined run, the directory that wait frees with
   child z is still in use exactly if z was cloned.
   */
  lemma WaitFreesInUseExactly(t: Table, i: nat, z: nat, t': Table)
    requires Shares(t) && Step(t, Wait(i), t') && WaitReaps(t, i, z, t')
    ensures (exists p: nat :: HolderOf(t', p, t.procs[z].pgdir)) <==> t.procs[z].pgdir == t.procs[i].pgdir
  {
    hide MakeOk, SleepOk, SerialsOk, MakersDiffer;
    var d := t.procs[z].pgdir;
    InitAlive(t);
    assert KindOk(t, z);
    if d == t.procs[i].pgdir {
      assert HolderOf(t', i, d);
    } else {
      forall p: nat | HolderOf(t', p, d)
        ensures false
      {
        Alone(t, z, p);
      }
    }
  }

  // ------------------------------- a run in which wait frees a directory in use

  /** A table in which at most the first two slots have been used. */
  function Two(p: Proc, q: Proc, next: nat, live: set<nat>): Table {
    Table([p, q] + seq(NPROC - 2, _ => Empty()), next, live)
  }

  function Init(state: State, pc: Pc): Proc {
    Proc(state, 1, NOBODY, 7, NoChan, false, pc, First, 1)
  }

  function Thread(state: State): Proc {
    Proc(state, 2, 0, 7, NoChan, false, User, Cloned, 2)
  }

  function CloneThenWait(): seq<Table> {
    [Two(Init(Runnable, User), Empty(), 2, {7}),
     Two(Init(Running, User), Empty(), 2, {7}),
     Two(Init(Running, Making(1, false, true)), Empty().(state := Embryo, pid := 2, serial := 2), 3, {7}),
     Two(Init(Running, Making(1, true, true)), Thread(Embryo), 3, {7}),
     Two(Init(Running, User), Thread(Runnable), 3, {7}),
     Two(Init(Running, User), Thread(Running), 3, {7}),
     Two(Init(Running, User), Thread(Zombie), 3, {7}),
     Two(Init(Running, User), Thread(Unused).(pid := 0, parent := NOBODY), 3, {})]
  }

  lemma CloneScheduled()
    ensures var ts := CloneThenWait(); Step(ts[0], Schedule(0), ts[1])
  {
  }

  lemma CloneAllocated()
    ensures var ts := CloneThenWait(); Step(ts[1], Alloc(0, true), ts[2])
  {
    var t, t' := CloneThenWait()[1], CloneThenWait()[2];
    assert t.procs[1].state == Unused;
    assert AllocStep(t, 0, true, t');
  }

  lemma CloneBuilt()
    ensures var ts := CloneThenWait();
            Step(ts[2], Build(0, 0), ts[3]) && Step(ts[3], Finish(0), ts[4]) && Step(ts[4], Schedule(1), ts[5])
  {
  }

  lemma CloneWaited()
    ensures var ts := CloneThenWait(); Step(ts[6], Wait(0), ts[7])
  {
    var ts := CloneThenWait();
    assert ZombieChild(ts[6], 0, 1) && !ZombieChild(ts[6], 0, 0);
    assert WaitReaps(ts[6], 0, 1, ts[7]);
  }

  lemma CloneThenExit()
    ensures var ts := CloneThenWait(); Step(ts[5], Exit(1), ts[6])
  {
    var ts := CloneThenWait();
    assert forall c: nat :: !ZombieChild(ts[5], 1, c);
  }

  /** init clones, the thread exits, init waits: its own page directory is gone. */
  lemma WaitFreesInUse() returns (ts: seq<Table>, acts: seq<Action>)
    ensures Run(ts, acts) && |ts| == 8 && HolderOf(ts[7], 0, 7) && 7 !in ts[7].live
  {
    hide Step;
    ts := CloneThenWait();
    acts := [Schedule(0), Alloc(0, true), Build(0, 0), Finish(0), Schedule(1), Exit(1), Wait(0)];
    CloneScheduled();
    CloneAllocated();
    CloneBuilt();
    CloneThenExit();
    CloneWaited();
    assert ts[0] == Boot(7);
    forall n: nat | n < |acts|
      ensures Step(ts[n], acts[n], ts[n + 1])
    {
      assert n == 0 || n == 1 || n == 2 || n == 3 || n == 4 || n == 5 || n == 6;
    }
  }
}
