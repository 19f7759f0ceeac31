/**
 Exits that leave a clone child behind (proc.c:194-210, 216-255): the child is passed to init and
 the directory it shares is freed by whichever wait reaps one of the two first, and again by the
 wait that reaps the other.
 */
module ProcOrphans {
  import opened ProcTable
  import opened ProcShare

  /** No process gets or loses a directory in this step: it makes none, execs none and reaps none. */
  ghost predicate Calm(t: Table, a: Action) {
    match a
    case Build(_, _) => false
    case Exec(_, _) => false
    case Wait(i) => forall c: nat :: !ZombieChild(t, i, c)
    case Join(i) => forall c: nat :: !ZombieThread(t, i, c)
    case _ => true
  }

  ghost predicate CalmRun(ts: seq<Table>, acts: seq<Action>) {
    |ts| == |acts| + 1 && forall n: nat :: n < |acts| ==> Step(ts[n], acts[n], ts[n + 1]) && Calm(ts[n], acts[n])
  }

  predicate SameDir(q: Proc, q': Proc) {
    Holds(q') == Holds(q) && (Holds(q) ==> q'.pgdir == q.pgdir)
  }

  ghost predicate SameDirs(t: Table, t': Table) {
    |t'.procs| == |t.procs| && t'.live == t.live && forall k: nat :: k < |t.procs| ==> SameDir(t.procs[k], t'.procs[k])
  }

  lemma CalmStep(t: Table, a: Action, t': Table)
    requires Inv(t) && Step(t, a, t') && Calm(t, a)
    ensures Inv(t') && SameDirs(t, t')
  {
    InvStep(t, a, t');
    hide Inv, Step, Calm, SameDirs;
    if a.Exit? {
      CalmExit(t, a.i, t');
    } else if a.Alloc? || a.GiveUp? || a.Finish? {
      CalmMake(t, a, t');
    } else {
      CalmRest(t, a, t');
    }
  }

  lemma CalmMake(t: Table, a: Action, t': Table)
    requires Inv(t) && Step(t, a, t') && (a.Alloc? || a.GiveUp? || a.Finish?)
    ensures SameDirs(t, t')
  {
    hide ParentOk, SleepOk, SerialsOk, MakersDiffer;
    assert MakeOk(t, a.i);
    forall k: nat | k < NPROC
      ensures SameDir(t.procs[k], t'.procs[k])
    {
      assert MakeOk(t, k);
    }
  }

  lemma CalmRest(t: Table, a: Action, t': Table)
    requires Inv(t) && Step(t, a, t') && Calm(t, a) && !a.Exit? && !a.Alloc? && !a.GiveUp? && !a.Finish?
    ensures SameDirs(t, t')
  {
    hide ParentOk, MakeOk, SleepOk, SerialsOk, MakersDiffer, AllocStep, BuildStep, ExitStep;
  }

  lemma CalmExit(t: Table, i: nat, t': Table)
    requires Inv(t) && Step(t, Exit(i), t')
    ensures SameDirs(t, t')
  {
    hide Inv;
    InvSize(t);
    ExitSize(t, i, t');
    forall k: nat | k < NPROC
      ensures SameDir(t.procs[k], t'.procs[k])
    {
      ExitHolds(t, i, t', k);
    }
  }

  lemma InvSize(t: Table)
    requires Inv(t)
    ensures |t.procs| == NPROC
  {
  }

  lemma {:induction false} CalmRunKeeps(ts: seq<Table>, acts: seq<Action>, n: nat)
    requires CalmRun(ts, acts) && n < |ts| && Inv(ts[0])
    ensures Inv(ts[n]) && SameDirs(ts[0], ts[n])
  {
    hide Inv, Step, Calm, SameDir;
    if n > 0 {
      CalmRunKeeps(ts, acts, n - 1);
      CalmStep(ts[n - 1], acts[n - 1], ts[n]);
      SameDirsTransitive(ts[0], ts[n - 1], ts[n]);
    } else {
      SameDirsSelf(ts[0]);
    }
  }

  lemma SameDirsSelf(t: Table)
    ensures SameDirs(t, t)
  {
  }

  lemma SameDirsTransitive(a: Table, b: Table, c: Table)
    requires SameDirs(a, b) && SameDirs(b, c)
    ensures SameDirs(a, c)
  {
    forall k: nat | k < |a.procs|
      ensures SameDir(a.procs[k], c.procs[k])
    {
      assert SameDir(a.procs[k], b.procs[k]) && SameDir(b.procs[k], c.procs[k]);
    }
  }

  /** z shares its directory with its parent or with a child. */
  ghost predicate HasThreads(t: Table, z: nat) {
    z < |t.procs| && (ThreadOf(t, t.procs[z].parent, z) || exists c: nat :: ThreadOf(t, z, c) && Holds(t.procs[c]))
  }

  /** Whoever shares z's directory is tied to it by a chain of clones, one end of which is at z. */
  lemma {:induction false} Tied(t: Table, z: nat, q: nat)
    requires Shares(t) && z < NPROC && q < NPROC && q != z && Holds(t.procs[z]) && Holds(t.procs[q])
    requires t.procs[q].pgdir == t.procs[z].pgdir
    ensures HasThreads(t, z)
    decreases t.procs[q].serial
  {
    hide ParentOk, MakeOk, SleepOk, SerialsOk, MakersDiffer;
    assert KindOk(t, z) && KindOk(t, q);
    if t.procs[z].kind == Cloned {
    } else if t.procs[q].parent == z {
      assert ThreadOf(t, z, q);
    } else if t.procs[q].kind == Cloned {
      Tied(t, z, t.procs[q].parent);
    }
  }

  lemma ThreadsHold(t: Table, z: nat) returns (q: nat)
    requires Shares(t) && z < NPROC && Holds(t.procs[z]) && HasThreads(t, z)
    ensures q != z && HolderOf(t, q, t.procs[z].pgdir)
  {
    hide ParentOk, MakeOk, SleepOk, SerialsOk, MakersDiffer;
    assert KindOk(t, z);
    if ThreadOf(t, t.procs[z].parent, z) {
      q := t.procs[z].parent;
      InitHolds(t);
    } else {
      q :| ThreadOf(t, z, q) && Holds(t.procs[q]);
      assert KindOk(t, q);
    }
  }

  /**
   After a disciplined run and any exits, the directory that wait frees with child z is in use
   afterwards exactly if z, when the discipline was left, shared it with its parent or a child.
   */
  lemma FreesInUseExactly(ts: seq<Table>, acts: seq<Action>, w: nat, z: nat, t': Table)
    requires CalmRun(ts, acts) && Shares(ts[0])
    requires var t := ts[|acts|]; Step(t, Wait(w), t') && WaitReaps(t, w, z, t')
    ensures var t := ts[|acts|]; (exists p: nat :: HolderOf(t', p, t.procs[z].pgdir)) <==> HasThreads(ts[0], z)
  {
    var t0, t := ts[0], ts[|acts|];
    CalmRunKeeps(ts, acts, |acts|);
    var d := t.procs[z].pgdir;
    hide ParentOk, MakeOk, SleepOk, SerialsOk, MakersDiffer;
    assert SameDir(t0.procs[z], t.procs[z]);
    if HasThreads(t0, z) {
      var q := ThreadsHold(t0, z);
      assert SameDir(t0.procs[q], t.procs[q]);
      assert HolderOf(t', q, d);
    }
    forall p: nat | HolderOf(t', p, d)
      ensures HasThreads(t0, z)
    {
      assert SameDir(t0.procs[p], t.procs[p]);
      Tied(t0, z, p);
    }
  }

  /** And the directory that a later wait frees with y has been freed already exactly if y and z shared it. */
  lemma FreedTwiceExactly(ts: seq<Table>, acts: seq<Action>, w: nat, z: nat, us: seq<Table>, bcts: seq<Action>, x: nat, y: nat, t': Table)
    requires CalmRun(ts, acts) && Shares(ts[0]) && CalmRun(us, bcts)
    requires Step(ts[|acts|], Wait(w), us[0]) && WaitReaps(ts[|acts|], w, z, us[0])
    requires Step(us[|bcts|], Wait(x), t') && WaitReaps(us[|bcts|], x, y, t')
    ensures us[|bcts|].procs[y].pgdir !in us[|bcts|].live <==> ts[0].procs[y].pgdir == ts[0].procs[z].pgdir
  {
    var t0, t, u0, u := ts[0], ts[|acts|], us[0], us[|bcts|];
    CalmRunKeeps(ts, acts, |acts|);
    InvStep(t, Wait(w), u0);
    CalmRunKeeps(us, bcts, |bcts|);
    hide ParentOk, MakeOk, SleepOk, SerialsOk, MakersDiffer;
    assert SameDir(t0.procs[z], t.procs[z]) && SameDir(u0.procs[y], u.procs[y]) && SameDir(t0.procs[y], t.procs[y]);
    assert KindOk(t0, y);
  }

  // ------------------------------------------ a run in which both happen

  /** A table in which at most the first three slots have been used. */
  function Three(p: Proc, q: Proc, r: Proc, next: nat, live: set<nat>): Table {
    Table([p, q, r] + seq(NPROC - 3, _ => Empty()), next, live)
  }

  function Child(state: State, pc: Pc): Proc {
    Proc(state, 2, 0, 8, NoChan, false, pc, Forked, 2)
  }

  function Orphan(state: State, parent: nat): Proc {
    Proc(state, 3, parent, 8, NoChan, false, User, Cloned, 3)
  }

  /** init forks; the child clones a thread and exits; init waits; the thread exits; init waits. */
  function Leave(n: nat): Table {
    var i := Init(Running, User);
    if n == 0 then Three(Init(Runnable, User), Empty(), Empty(), 2, {7})
    else if n == 1 then Three(i, Empty(), Empty(), 2, {7})
    else if n == 2 then Three(Init(Running, Making(1, false, false)), Empty().(state := Embryo, pid := 2, serial := 2), Empty(), 3, {7})
    else if n == 3 then Three(Init(Running, Making(1, true, false)), Child(Embryo, User), Empty(), 3, {7, 8})
    else if n == 4 then Three(i, Child(Runnable, User), Empty(), 3, {7, 8})
    else if n == 5 then Three(i, Child(Running, User), Empty(), 3, {7, 8})
    else if n == 6 then Three(i, Child(Running, Making(2, false, true)), Empty().(state := Embryo, pid := 3, serial := 3), 4, {7, 8})
    else if n == 7 then Three(i, Child(Running, Making(2, true, true)), Orphan(Embryo, 1), 4, {7, 8})
    else if n == 8 then Three(i, Child(Running, User), Orphan(Runnable, 1), 4, {7, 8})
    else if n == 9 then Three(i, Child(Zombie, User), Orphan(Runnable, 0), 4, {7, 8})
    else if n == 10 then Three(i, Reaped(Child(Zombie, User)), Orphan(Runnable, 0), 4, {7})
    else if n == 11 then Three(i, Reaped(Child(Zombie, User)), Orphan(Running, 0), 4, {7})
    else if n == 12 then Three(i, Reaped(Child(Zombie, User)), Orphan(Zombie, 0), 4, {7})
    else Three(i, Reaped(Child(Zombie, User)), Reaped(Orphan(Zombie, 0)), 4, {7})
  }

  function LeaveAct(n: nat): Action {
    if n == 0 then Schedule(0)
    else if n == 1 then Alloc(0, false)
    else if n == 2 then Build(0, 8)
    else if n == 3 then Finish(0)
    else if n == 4 then Schedule(1)
    else if n == 5 then Alloc(1, true)
    else if n == 6 then Build(1, 0)
    else if n == 7 then Finish(1)
    else if n == 8 then Exit(1)
    else if n == 9 then Wait(0)
    else if n == 10 then Schedule(2)
    else if n == 11 then Exit(2)
    else Wait(0)
  }

  ghost predicate LeaveStep(n: nat) {
    Step(Leave(n), LeaveAct(n), Leave(n + 1))
  }

  lemma LeaveScheduled()
    ensures LeaveStep(0) && LeaveStep(4)
  {
  }

  lemma ThreadScheduled()
    ensures LeaveStep(10)
  {
  }

  /** allocproc when slot np is the first free one. */
  lemma Allocates(t: Table, i: nat, np: nat, cloned: bool)
    requires |t.procs| == NPROC && i < NPROC && np < NPROC && ReadyToCall(t.procs[i]) && t.procs[np].state == Unused
    requires forall k: nat :: k < np ==> t.procs[k].state != Unused
    ensures Step(t, Alloc(i, cloned),
                 With(With(t, np, Claimed(t.procs[np], t.next)), i, t.procs[i].(pc := Making(np, false, cloned))).(next := t.next + 1))
  {
    hide Claimed, With;
  }

  lemma ChildAllocated()
    ensures LeaveStep(1)
  {
    hide Step;
    Allocates(Leave(1), 0, 1, false);
    assert Leave(2).procs == Leave(1).procs[1 := Claimed(Empty(), 2)][0 := Init(Running, Making(1, false, false))];
  }

  lemma ThreadAllocated()
    ensures LeaveStep(5)
  {
    hide Step;
    Allocates(Leave(5), 1, 2, true);
    assert Leave(6).procs == Leave(5).procs[2 := Claimed(Empty(), 3)][1 := Child(Running, Making(2, false, true))];
  }

  lemma ChildBuilt()
    ensures LeaveStep(2) && LeaveStep(3)
  {
  }

  lemma ThreadBuilt()
    ensures LeaveStep(6) && LeaveStep(7)
  {
  }

  lemma ChildExits()
    ensures LeaveStep(8)
  {
    assert forall c: nat :: !ZombieChild(Leave(8), 1, c);
  }

  lemma ThreadExits()
    ensures LeaveStep(11)
  {
    assert forall c: nat :: !ZombieChild(Leave(11), 2, c);
  }

  lemma ChildReaped()
    ensures WaitReaps(Leave(9), 0, 1, Leave(10)) && LeaveStep(9)
    ensures 8 in Leave(9).live && 8 !in Leave(10).live && HolderOf(Leave(10), 2, 8) && Alive(Leave(10).procs[2])
  {
    assert ZombieChild(Leave(9), 0, 1) && !ZombieChild(Leave(9), 0, 0);
    assert WaitReaps(Leave(9), 0, 1, Leave(10));
  }

  lemma ThreadReaped()
    ensures WaitReaps(Leave(12), 0, 2, Leave(13)) && LeaveStep(12)
    ensures |Leave(12).procs| == NPROC && Leave(12).procs[2].pgdir == 8 && 8 !in Leave(12).live
  {
    assert ZombieChild(Leave(12), 0, 2) && !ZombieChild(Leave(12), 0, 0) && !ZombieChild(Leave(12), 0, 1);
    assert WaitReaps(Leave(12), 0, 2, Leave(13));
  }

  lemma LeaveSteps(n: nat)
    requires n < 13
    ensures LeaveStep(n)
  {
    hide LeaveStep, Leave;
    LeaveScheduled();
    ThreadScheduled();
    ChildAllocated();
    ThreadAllocated();
    ChildBuilt();
    ThreadBuilt();
    ChildExits();
    ThreadExits();
    ChildReaped();
    ThreadReaped();
  }

  lemma LeaveBoots()
    ensures Leave(0) == Boot(7)
  {
  }

  /** The directory 8 is freed while the thread is RUNNABLE, and is not allocated when the second wait frees it. */
  lemma ExitFreesInUse() returns (ts: seq<Table>, acts: seq<Action>)
    ensures Run(ts, acts) && |acts| == 13
    ensures acts[9] == Wait(0) && 8 in ts[9].live && 8 !in ts[10].live && HolderOf(ts[10], 2, 8) && Alive(ts[10].procs[2])
    ensures acts[12] == Wait(0) && WaitReaps(ts[12], 0, 2, ts[13]) && |ts[12].procs| == NPROC
    ensures ts[12].procs[2].pgdir == 8 && 8 !in ts[12].live
  {
    hide Step, Leave, WaitReaps, HolderOf;
    ts := seq(14, n requires 0 <= n < 14 => Leave(n));
    acts := seq(13, n requires 0 <= n < 13 => LeaveAct(n));
    LeaveBoots();
    ChildReaped();
    ThreadReaped();
    forall n: nat | n < |acts|
      ensures Step(ts[n], acts[n], ts[n + 1])
    {
      LeaveSteps(n);
    }
  }
}
