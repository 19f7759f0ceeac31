/**
 The process table of proc.c as a state machine. One action is what happens between taking
 and releasing ptable.lock, or one unlocked write to a slot that is being built.
 Slot 0 is initproc: userinit finds it first.
 */
module ProcTable {

  const NPROC: nat := 64
  const NOBODY: nat := 64  // a null parent pointer

  datatype State = Unused | Embryo | Sleeping | Runnable | Running | Zombie

  /** What a process sleeps on: another process's address, or anything else. */
  datatype Chan = NoChan | ProcChan(slot: nat) | OtherChan(n: nat)

  /** Where a process is in the kernel: making process np (fork or clone), in wait, in join, or elsewhere. */
  datatype Pc = User | Making(np: nat, built: bool, cloned: bool) | InWait | InJoin

  /** How a process came about; not stored by the source. */
  datatype Kind = First | Forked | Cloned

  /** serial counts calls of allocproc; the source keeps its low 32 bits, as pid. */
  datatype Proc = Proc(state: State, pid: int, parent: nat, pgdir: nat, chan: Chan, killed: bool, pc: Pc, kind: Kind, serial: nat)

  /** `live` is the set of page directories that are allocated. */
  datatype Table = Table(procs: seq<Proc>, next: nat, live: set<nat>)

  /** The int that counting to n from 0 gives. */
  function PidOf(n: nat): int {
    var w := n % 0x1_0000_0000;
    if w < 0x8000_0000 then w else w - 0x1_0000_0000
  }

  predicate Alive(q: Proc) {
    q.state == Sleeping || q.state == Runnable || q.state == Running
  }

  /** Neither UNUSED nor still being made. */
  predicate Built(q: Proc) {
    Alive(q) || q.state == Zombie
  }

  predicate ZombieChild(t: Table, p: nat, c: nat) {
    c < |t.procs| && t.procs[c].parent == p && t.procs[c].state == Zombie
  }

  predicate ZombieThread(t: Table, p: nat, c: nat) {
    ZombieChild(t, p, c) && p < |t.procs| && t.procs[c].pgdir == t.procs[p].pgdir
  }

  // ------------------------------------------------------------- actions

  datatype Action =
    | Schedule(i: nat)                 // scheduler picks i
    | Yield(i: nat)
    | Sleep(i: nat, n: nat)            // anywhere but in wait and join
    | Wakeup(n: nat)                   // of such a sleep
    | Kill(pid: int)
    | Alloc(i: nat, cloned: bool)      // allocproc, called by fork or clone
    | GiveUp(i: nat)                   // kalloc or copyuvm failed
    | Build(i: nat, d: nat)            // the new process's pgdir and parent; d is copyuvm's directory
    | Finish(i: nat)                   // the new process made RUNNABLE
    | Exec(i: nat, d: nat)             // exec replaces the directory by d
    | Exit(i: nat)
    | Wait(i: nat)                     // one scan of the table
    | Join(i: nat)

  /** wakeup1(c) on one slot. */
  function Woken(q: Proc, c: Chan): Proc {
    if q.state == Sleeping && q.chan == c then q.(state := Runnable) else q
  }

  function Killed(q: Proc): Proc {
    q.(killed := true, state := if q.state == Sleeping then Runnable else q.state)
  }

  /** A slot given up by wait or join; pgdir keeps its old value. */
  function Reaped(q: Proc): Proc {
    q.(state := Unused, pid := 0, parent := NOBODY, killed := false)
  }

  predicate ReadyToCall(q: Proc) {
    q.state == Running && q.pc == User
  }

  /** Slot k after exit by i, where `orphan` tells that i leaves a zombie child. */
  function AfterExit(t: Table, i: nat, orphan: bool, k: nat): Proc
    requires i < |t.procs| && k < |t.procs|
  {
    var q := Woken(t.procs[k], ProcChan(t.procs[i].parent));
    var q1 := if orphan then Woken(q, ProcChan(0)) else q;
    q1.(parent := if q1.parent == i then 0 else q1.parent, state := if k == i then Zombie else q1.state)
  }

  ghost predicate ExitStep(t: Table, i: nat, t': Table)
    requires i < |t.procs|
  {
    && t'.next == t.next && t'.live == t.live && |t'.procs| == |t.procs|
    && forall k: nat :: k < |t.procs| ==> t'.procs[k] == AfterExit(t, i, (exists c: nat :: ZombieChild(t, i, c)), k)
  }

  /** The table with slot k replaced. */
  function With(t: Table, k: nat, q: Proc): Table
    requires k < |t.procs|
  {
    t.(procs := t.procs[k := q])
  }

  /** A scan that finds nothing: return -1 if there is no (thread) child or on kill, sleep otherwise. */
  ghost predicate NothingToReap(t: Table, i: nat, kids: bool, pc: Pc, t': Table)
    requires i < |t.procs|
  {
    var q := t.procs[i];
    t' == With(t, i, if !kids || q.killed then q.(pc := User) else q.(pc := pc, chan := ProcChan(i), state := Sleeping))
  }

  /** The child in slot z is the first of its sort, and is reaped. */
  ghost predicate WaitReaps(t: Table, i: nat, z: nat, t': Table) {
    && i < |t.procs| && ZombieChild(t, i, z) && (forall c: nat :: c < z ==> !ZombieChild(t, i, c))
    && t' == With(With(t, z, Reaped(t.procs[z])), i, t.procs[i].(pc := User)).(live := t.live - {t.procs[z].pgdir})
  }

  ghost predicate WaitStep(t: Table, i: nat, t': Table)
    requires i < |t.procs|
  {
    || (exists z: nat :: WaitReaps(t, i, z, t'))
    || ((forall c: nat :: !ZombieChild(t, i, c)) && NothingToReap(t, i, (exists c: nat :: c < |t.procs| && t.procs[c].parent == i), InWait, t'))
  }

  /** As wait's, but the page directory is not freed. */
  ghost predicate JoinReaps(t: Table, i: nat, z: nat, t': Table) {
    && i < |t.procs| && ZombieThread(t, i, z) && (forall c: nat :: c < z ==> !ZombieThread(t, i, c))
    && t' == With(With(t, z, Reaped(t.procs[z])), i, t.procs[i].(pc := User))
  }

  ghost predicate ThreadOf(t: Table, i: nat, c: nat) {
    i < |t.procs| && c < |t.procs| && t.procs[c].parent == i && t.procs[c].pgdir == t.procs[i].pgdir
  }

  ghost predicate JoinStep(t: Table, i: nat, t': Table)
    requires i < |t.procs|
  {
    || (exists z: nat :: JoinReaps(t, i, z, t'))
    || ((forall c: nat :: !ZombieThread(t, i, c)) && NothingToReap(t, i, (exists c: nat :: ThreadOf(t, i, c)), InJoin, t'))
  }

  /** The slot np that allocproc takes; it looks like this afterwards. */
  function Claimed(q: Proc, serial: nat): Proc {
    q.(state := Embryo, pid := PidOf(serial), serial := serial)
  }

  ghost predicate AllocStep(t: Table, i: nat, cloned: bool, t': Table)
    requires i < |t.procs|
  {
    if exists k: nat :: k < |t.procs| && t.procs[k].state == Unused then
      exists np: nat {:trigger t.procs[np]} ::
        && np < |t.procs| && t.procs[np].state == Unused && (forall k: nat :: k < np ==> t.procs[k].state != Unused)
        && t' == With(With(t, np, Claimed(t.procs[np], t.next)), i, t.procs[i].(pc := Making(np, false, cloned))).(next := t.next + 1)
    else t' == t
  }

  ghost predicate BuildStep(t: Table, i: nat, d: nat, t': Table)
    requires i < |t.procs| && t.procs[i].pc.Making? && t.procs[i].pc.np < |t.procs|
  {
    var q := t.procs[i];
    var np := t.procs[q.pc.np];
    if q.pc.cloned then
      t' == With(With(t, q.pc.np, np.(pgdir := q.pgdir, parent := i, kind := Cloned)), i, q.(pc := q.pc.(built := true)))
    else
      && d !in t.live
      && t' == With(With(t, q.pc.np, np.(pgdir := d, parent := i, kind := Forked)), i, q.(pc := q.pc.(built := true))).(live := t.live + {d})
  }

  ghost predicate KillStep(t: Table, pid: int, t': Table) {
    || ((forall k: nat :: k < |t.procs| ==> t.procs[k].pid != pid) && t' == t)
    || exists k: nat {:trigger t.procs[k]} :: k < |t.procs| && t.procs[k].pid == pid && (forall j: nat :: j < k ==> t.procs[j].pid != pid) && t' == With(t, k, Killed(t.procs[k]))
  }

  /** One step of the system. */
  ghost predicate Step(t: Table, a: Action, t': Table) {
    && |t.procs| == NPROC
    && match a
       case Schedule(i) => i < NPROC && t.procs[i].state == Runnable && t' == With(t, i, t.procs[i].(state := Running, chan := NoChan))
       case Yield(i) => i < NPROC && t.procs[i].state == Running && t' == With(t, i, t.procs[i].(state := Runnable))
       case Sleep(i, n) => i < NPROC && ReadyToCall(t.procs[i]) && t' == With(t, i, t.procs[i].(state := Sleeping, chan := OtherChan(n)))
       case Wakeup(n) => t'.next == t.next && t'.live == t.live && |t'.procs| == NPROC && forall k: nat :: k < NPROC ==> t'.procs[k] == Woken(t.procs[k], OtherChan(n))
       case Kill(pid) => KillStep(t, pid, t')
       case Alloc(i, cloned) => i < NPROC && ReadyToCall(t.procs[i]) && AllocStep(t, i, cloned, t')
       case GiveUp(i) => i < NPROC && t.procs[i].state == Running && t.procs[i].pc.Making? && !t.procs[i].pc.built && t.procs[i].pc.np < NPROC
                         && t' == With(With(t, t.procs[i].pc.np, t.procs[t.procs[i].pc.np].(state := Unused)), i, t.procs[i].(pc := User))
       case Build(i, d) => i < NPROC && t.procs[i].state == Running && t.procs[i].pc.Making? && !t.procs[i].pc.built && t.procs[i].pc.np < NPROC
                           && BuildStep(t, i, d, t')
       case Finish(i) => i < NPROC && t.procs[i].state == Running && t.procs[i].pc.Making? && t.procs[i].pc.built && t.procs[i].pc.np < NPROC
                         && t' == With(With(t, t.procs[i].pc.np, t.procs[t.procs[i].pc.np].(state := Runnable)), i, t.procs[i].(pc := User))
       case Exec(i, d) => i < NPROC && ReadyToCall(t.procs[i]) && d !in t.live
                          && t' == With(t, i, t.procs[i].(pgdir := d)).(live := t.live + {d} - {t.procs[i].pgdir})
       case Exit(i) => 0 < i < NPROC && ReadyToCall(t.procs[i]) && ExitStep(t, i, t')
       case Wait(i) => i < NPROC && t.procs[i].state == Running && (t.procs[i].pc == User || t.procs[i].pc == InWait) && WaitStep(t, i, t')
       case Join(i) => i < NPROC && t.procs[i].state == Running && (t.procs[i].pc == User || t.procs[i].pc == InJoin) && JoinStep(t, i, t')
  }

  // ----------------------------------------------------------- invariant

  /** Every fully built process but init has a live parent, and init is alive. */
  ghost predicate ParentOk(t: Table, p: nat)
    requires |t.procs| == NPROC && p < NPROC
  {
    var q := t.procs[p];
    && (p == 0 ==> Alive(q) && q.parent == NOBODY)
    && (Built(q) && p != 0 ==> q.parent < NPROC && q.parent != p && Alive(t.procs[q.parent]))
  }

  /** A process in the middle of fork or clone, and the one it is making. */
  ghost predicate MakeOk(t: Table, p: nat)
    requires |t.procs| == NPROC && p < NPROC
  {
    var q := t.procs[p];
    && (q.state == Unused ==> q.parent == NOBODY)
    && (q.state == Embryo && q.parent != NOBODY ==> q.parent < NPROC && t.procs[q.parent].pc.Making? && t.procs[q.parent].pc.np == p)
    && (q.pc != User ==> Alive(q))
    && (q.pc.Making? ==> q.state != Sleeping && MakingOk(t, p, q.pc))
  }

  ghost predicate MakingOk(t: Table, p: nat, pc: Pc)
    requires |t.procs| == NPROC && pc.Making?
  {
    && 0 < pc.np < NPROC && pc.np != p && p < NPROC && t.procs[pc.np].state == Embryo && t.procs[p].serial < t.procs[pc.np].serial
    && t.procs[pc.np].parent == if pc.built then p else NOBODY
  }

  /** No lost wakeup: who sleeps in wait has no zombie child, who sleeps in join no zombie thread. */
  ghost predicate SleepOk(t: Table, p: nat)
    requires |t.procs| == NPROC && p < NPROC
  {
    var q := t.procs[p];
    && (q.state == Sleeping && q.pc == InWait ==> q.chan == ProcChan(p) && forall c: nat :: !ZombieChild(t, p, c))
    && (q.state == Sleeping && q.pc == InJoin ==> q.chan == ProcChan(p) && forall c: nat :: !ZombieThread(t, p, c))
  }

  ghost predicate MakersDiffer(t: Table) {
    forall i: nat, j: nat :: i < j < |t.procs| && t.procs[i].pc.Making? && t.procs[j].pc.Making? ==> t.procs[i].pc.np != t.procs[j].pc.np
  }

  ghost predicate SerialsOk(t: Table) {
    && (forall p: nat :: p < |t.procs| && t.procs[p].state != Unused ==> t.procs[p].serial < t.next && t.procs[p].pid == PidOf(t.procs[p].serial))
    && (forall p: nat, q: nat :: p < q < |t.procs| && t.procs[p].state != Unused && t.procs[q].state != Unused ==> t.procs[p].serial != t.procs[q].serial)
  }

  /** Holds whenever ptable.lock is free. */
  ghost predicate Inv(t: Table) {
    && |t.procs| == NPROC && MakersDiffer(t) && SerialsOk(t)
    && (forall p: nat :: p < NPROC ==> ParentOk(t, p))
    && (forall p: nat :: p < NPROC ==> MakeOk(t, p))
    && (forall p: nat :: p < NPROC ==> SleepOk(t, p))
  }

  // ------------------------------------------- what leaves each part alone

  predicate SameSerial(q: Proc, q': Proc) {
    q'.state != Unused ==> q.state != Unused && q'.serial == q.serial && q'.pid == q.pid
  }

  lemma SerialsKept(t: Table, t': Table)
    requires SerialsOk(t) && |t'.procs| == |t.procs| && t'.next == t.next
    requires forall k: nat :: k < |t.procs| ==> SameSerial(t.procs[k], t'.procs[k])
    ensures SerialsOk(t')
  {
  }

  predicate SameMaking(q: Proc, q': Proc) {
    q'.pc.Making? ==> q.pc.Making? && q'.pc.np == q.pc.np
  }

  lemma MakersKept(t: Table, t': Table)
    requires MakersDiffer(t) && |t'.procs| == |t.procs|
    requires forall k: nat :: k < |t.procs| ==> SameMaking(t.procs[k], t'.procs[k])
    ensures MakersDiffer(t')
  {
  }

  predicate SameParent(q: Proc, q': Proc) {
    (Built(q') ==> Built(q) && q'.parent == q.parent) && (Alive(q) ==> Alive(q') && q'.parent == q.parent)
  }

  lemma ParentsKept(t: Table, t': Table)
    requires Inv(t) && |t'.procs| == NPROC
    requires forall k: nat :: k < NPROC ==> SameParent(t.procs[k], t'.procs[k])
    ensures forall p: nat :: p < NPROC ==> ParentOk(t', p)
  {
    forall p: nat | p < NPROC
      ensures ParentOk(t', p)
    {
      assert ParentOk(t, p);
    }
  }

  predicate SameMake(q: Proc, q': Proc) {
    && (q'.state == Embryo <==> q.state == Embryo) && (q.state == Embryo ==> q'.parent == q.parent)
    && (q.pc.Making? || q'.pc.Making? ==> q'.pc == q.pc && q'.state != Sleeping)
    && (q'.pc != User ==> Alive(q')) && (q'.state == Unused ==> q'.parent == NOBODY)
    && (q'.state != Unused ==> q'.serial == q.serial)
  }

  lemma MakesKept(t: Table, t': Table)
    requires Inv(t) && |t'.procs| == NPROC
    requires forall k: nat :: k < NPROC ==> SameMake(t.procs[k], t'.procs[k])
    ensures forall p: nat :: p < NPROC ==> MakeOk(t', p)
  {
    forall p: nat | p < NPROC
      ensures MakeOk(t', p)
    {
      assert MakeOk(t, p) && SameMake(t.procs[p], t'.procs[p]);
      var q := t.procs[p];
      if q.pc.Making? {
        assert SameMake(t.procs[q.pc.np], t'.procs[q.pc.np]);
      }
      if q.state == Embryo && q.parent != NOBODY {
        assert SameMake(t.procs[q.parent], t'.procs[q.parent]);
      }
    }
  }

  predicate SameSleep(q: Proc, q': Proc) {
    && (q'.state == Zombie ==> q.state == Zombie && q'.parent == q.parent && q'.pgdir == q.pgdir)
    && (q'.state == Sleeping && (q'.pc == InWait || q'.pc == InJoin) ==>
          q.state == Sleeping && q'.pc == q.pc && q'.chan == q.chan && q'.pgdir == q.pgdir)
  }

  /** Only process `but` may have fallen asleep in wait or join. */
  lemma SleepsKept(t: Table, t': Table, but: nat)
    requires Inv(t) && |t'.procs| == NPROC
    requires forall k: nat :: k < NPROC && k != but ==> SameSleep(t.procs[k], t'.procs[k])
    requires but < NPROC ==> SleepOk(t', but) && t'.procs[but].state != Zombie
    ensures forall p: nat :: p < NPROC ==> SleepOk(t', p)
  {
    forall p: nat | p < NPROC && p != but
      ensures SleepOk(t', p)
    {
      assert SleepOk(t, p) && SameSleep(t.procs[p], t'.procs[p]);
      forall c: nat | ZombieChild(t', p, c)
        ensures ZombieChild(t, p, c) && t'.procs[c].pgdir == t.procs[c].pgdir
      {
        assert SameSleep(t.procs[c], t'.procs[c]);
      }
      assert t'.procs[p].pgdir == t.procs[p].pgdir ==> forall c: nat :: ZombieThread(t', p, c) ==> ZombieThread(t, p, c);
    }
  }

  /** Changes that touch nothing the invariant speaks of, except how `but` sleeps. */
  predicate Quiet(q: Proc, q': Proc) {
    SameSerial(q, q') && SameMaking(q, q') && SameParent(q, q') && SameMake(q, q')
  }

  lemma QuietKeeps(t: Table, t': Table, but: nat)
    requires Inv(t) && |t'.procs| == NPROC && t'.next == t.next
    requires forall k: nat :: k < NPROC ==> Quiet(t.procs[k], t'.procs[k])
    requires forall k: nat :: k < NPROC && k != but ==> SameSleep(t.procs[k], t'.procs[k])
    requires but < NPROC ==> SleepOk(t', but) && t'.procs[but].state != Zombie
    ensures Inv(t')
  {
    assert forall k: nat :: k < NPROC ==> Quiet(t.procs[k], t'.procs[k]);
    SerialsKept(t, t');
    MakersKept(t, t');
    ParentsKept(t, t');
    MakesKept(t, t');
    SleepsKept(t, t', but);
  }

  // -------------------------------------------------- each action keeps it

  lemma SimpleSteps(t: Table, a: Action, t': Table)
    requires Inv(t) && Step(t, a, t') && (a.Schedule? || a.Yield? || a.Sleep? || a.Wakeup? || a.Kill? || a.Exec?)
    ensures Inv(t')
  {
    forall k: nat | k < NPROC
      ensures Quiet(t.procs[k], t'.procs[k]) && SameSleep(t.procs[k], t'.procs[k])
    {
      assert MakeOk(t, k);
    }
    QuietKeeps(t, t', NOBODY);
  }

  /** Slot z was a zombie's and has been given up. */
  lemma ReapKeeps(t: Table, i: nat, z: nat, t': Table)
    requires Inv(t) && i < NPROC && z < NPROC && z != i && t.procs[z].state == Zombie && !t.procs[i].pc.Making? && Alive(t.procs[i])
    requires t'.next == t.next && t'.procs == t.procs[z := Reaped(t.procs[z])][i := t.procs[i].(pc := User)]
    ensures Inv(t')
  {
    forall k: nat | k < NPROC
      ensures Quiet(t.procs[k], t'.procs[k]) && SameSleep(t.procs[k], t'.procs[k])
    {
      assert MakeOk(t, k);
    }
    QuietKeeps(t, t', NOBODY);
  }

  lemma ScanKeeps(t: Table, i: nat, kids: bool, pc: Pc, t': Table)
    requires Inv(t) && i < NPROC && NothingToReap(t, i, kids, pc, t') && !t.procs[i].pc.Making? && t.procs[i].state == Running
    requires (pc == InWait && forall c: nat :: !ZombieChild(t, i, c)) || (pc == InJoin && forall c: nat :: !ZombieThread(t, i, c))
    ensures Inv(t')
  {
    forall k: nat | k < NPROC
      ensures Quiet(t.procs[k], t'.procs[k])
      ensures k != i ==> SameSleep(t.procs[k], t'.procs[k])
    {
      assert MakeOk(t, k);
    }
    forall c: nat
      ensures ZombieChild(t', i, c) ==> ZombieChild(t, i, c)
      ensures ZombieThread(t', i, c) ==> ZombieThread(t, i, c)
    {
    }
    QuietKeeps(t, t', i);
  }

  lemma WaitKeeps(t: Table, i: nat, t': Table)
    requires Inv(t) && Step(t, Wait(i), t')
    ensures Inv(t')
  {
    if z: nat :| WaitReaps(t, i, z, t') {
      ReapKeeps(t, i, z, t');
    } else {
      ScanKeeps(t, i, (exists c: nat :: c < |t.procs| && t.procs[c].parent == i), InWait, t');
    }
  }

  lemma JoinKeeps(t: Table, i: nat, t': Table)
    requires Inv(t) && Step(t, Join(i), t')
    ensures Inv(t')
  {
    if z: nat :| JoinReaps(t, i, z, t') {
      ReapKeeps(t, i, z, t');
    } else {
      ScanKeeps(t, i, (exists c: nat :: ThreadOf(t, i, c)), InJoin, t');
    }
  }

  ghost predicate Exits(t: Table, i: nat, t': Table) {
    |t.procs| == NPROC && 0 < i < NPROC && ReadyToCall(t.procs[i]) && ExitStep(t, i, t')
  }

  /** exit wakes whoever may now have a zombie to reap. */
  lemma ExitWakes(t: Table, i: nat, t': Table, p: nat, c: nat)
    requires Inv(t) && Exits(t, i, t') && p < NPROC && ZombieChild(t', p, c) && t'.procs[p].state == Sleeping && t'.procs[p].chan == ProcChan(p)
    ensures ZombieChild(t, p, c) && t'.procs[c].pgdir == t.procs[c].pgdir
  {
    assert ParentOk(t, i);
    var orphan := exists b: nat :: ZombieChild(t, i, b);
    assert t'.procs[c] == AfterExit(t, i, orphan, c) && t'.procs[p] == AfterExit(t, i, orphan, p);
    if c != i && t.procs[c].parent == i {
      assert ZombieChild(t, i, c);
    }
  }

  lemma ExitSleeps(t: Table, i: nat, t': Table, p: nat)
    requires Inv(t) && Exits(t, i, t') && p < NPROC
    ensures SleepOk(t', p)
  {
    assert SleepOk(t, p);
    var q' := t'.procs[p];
    assert q' == AfterExit(t, i, (exists b: nat :: ZombieChild(t, i, b)), p);
    if q'.state == Sleeping && q'.chan == ProcChan(p) {
      forall c: nat | ZombieChild(t', p, c)
        ensures ZombieChild(t, p, c) && t'.procs[c].pgdir == t.procs[c].pgdir
      {
        ExitWakes(t, i, t', p, c);
      }
      assert forall c: nat :: ZombieThread(t', p, c) ==> ZombieThread(t, p, c);
    }
  }

  lemma ExitSlot(t: Table, i: nat, t': Table, k: nat)
    requires Inv(t) && Exits(t, i, t') && k < NPROC
    ensures SameSerial(t.procs[k], t'.procs[k]) && SameMaking(t.procs[k], t'.procs[k]) && SameMake(t.procs[k], t'.procs[k])
    ensures Built(t'.procs[k]) == Built(t.procs[k]) && (k != i ==> Alive(t'.procs[k]) == Alive(t.procs[k]))
    ensures t'.procs[k].parent == if t.procs[k].parent == i then 0 else t.procs[k].parent
  {
    hide ParentOk, SleepOk, SerialsOk, MakersDiffer;
    assert MakeOk(t, k);
    assert t'.procs[k] == AfterExit(t, i, (exists b: nat :: ZombieChild(t, i, b)), k);
  }

  lemma ExitKeeps(t: Table, i: nat, t': Table)
    requires Inv(t) && Exits(t, i, t')
    ensures Inv(t')
  {
    hide ExitStep, ZombieChild, SleepOk, MakeOk;
    ExitSize(t, i, t');
    forall k: nat | k < NPROC
      ensures SameSerial(t.procs[k], t'.procs[k]) && SameMaking(t.procs[k], t'.procs[k]) && SameMake(t.procs[k], t'.procs[k])
      ensures SleepOk(t', k) && ParentOk(t', k)
    {
      ExitSlot(t, i, t', k);
      ExitSleeps(t, i, t', k);
      assert ParentOk(t, k) && ParentOk(t, 0) && ParentOk(t, i);
      if t'.procs[k].parent < NPROC {
        ExitSlot(t, i, t', t'.procs[k].parent);
      }
    }
    SerialsKept(t, t');
    MakersKept(t, t');
    MakesKept(t, t');
  }

  lemma ExitSize(t: Table, i: nat, t': Table)
    requires Exits(t, i, t')
    ensures |t'.procs| == NPROC && t'.next == t.next && t'.live == t.live
  {
  }

  // Making a process changes the slot that is being made and the maker's pc.

  /** Slot np and the maker i are the only ones to change. */
  ghost predicate OnlyMakes(t: Table, i: nat, np: nat, t': Table) {
    && |t.procs| == |t'.procs| == NPROC && i < NPROC && 0 < np < NPROC && np != i
    && t.procs[i].state == Running && t'.procs[i] == t.procs[i].(pc := t'.procs[i].pc)
    && (forall k: nat :: k < NPROC && k != i && k != np ==> t'.procs[k] == t.procs[k])
    && !Built(t.procs[np]) && t'.procs[np].state != Zombie && t'.procs[np].state != Sleeping && t'.procs[np].pc == t.procs[np].pc
    && t'.procs[i].pc != InWait && t'.procs[i].pc != InJoin
  }

  lemma MakeSleeps(t: Table, i: nat, np: nat, t': Table)
    requires Inv(t) && OnlyMakes(t, i, np, t')
    ensures forall p: nat :: p < NPROC ==> SleepOk(t', p)
  {
    forall k: nat | k < NPROC
      ensures SameSleep(t.procs[k], t'.procs[k])
    {
    }
    SleepsKept(t, t', NOBODY);
  }

  /** The maker is making np, or np is free. */
  ghost predicate MakerOf(t: Table, i: nat, np: nat)
    requires i < |t.procs| && np < |t.procs|
  {
    if t.procs[i].pc.Making? then t.procs[i].pc.np == np else t.procs[np].state == Unused
  }

  lemma OthersMake(t: Table, i: nat, np: nat, t': Table, k: nat)
    requires Inv(t) && OnlyMakes(t, i, np, t') && MakerOf(t, i, np) && k < NPROC && k != i && k != np
    ensures MakeOk(t', k) && (t.procs[k].pc.Making? ==> t.procs[k].pc.np != np)
  {
    assert MakeOk(t, k);
    var q := t.procs[k];
    if q.pc.Making? {
      assert q.pc.np != i;
    }
  }

  /** What is left to show of an action that makes np. */
  lemma MakeKeeps(t: Table, i: nat, np: nat, t': Table)
    requires Inv(t) && OnlyMakes(t, i, np, t') && MakerOf(t, i, np) && SerialsOk(t')
    requires MakeOk(t', i) && MakeOk(t', np) && (t'.procs[i].pc.Making? ==> t'.procs[i].pc.np == np) && !t'.procs[np].pc.Making?
    requires Built(t'.procs[np]) ==> t'.procs[np].parent == i
    ensures Inv(t')
  {
    MakeSleeps(t, i, np, t');
    forall p: nat | p < NPROC
      ensures MakeOk(t', p) && (p != i && p != np && t.procs[p].pc.Making? ==> t.procs[p].pc.np != np)
    {
      if p != i && p != np {
        OthersMake(t, i, np, t', p);
      }
    }
    forall p: nat | p < NPROC
      ensures ParentOk(t', p)
    {
      assert ParentOk(t, p);
    }
  }

  lemma AllocTakes(t: Table, i: nat, np: nat, cloned: bool, t': Table)
    requires Inv(t) && i < NPROC && ReadyToCall(t.procs[i]) && np < NPROC && t.procs[np].state == Unused && np != i
    requires t' == With(With(t, np, Claimed(t.procs[np], t.next)), i, t.procs[i].(pc := Making(np, false, cloned))).(next := t.next + 1)
    ensures Inv(t')
  {
    hide SleepOk;
    assert ParentOk(t, 0) && MakeOk(t, np);
    MakeKeeps(t, i, np, t');
  }

  lemma AllocKeeps(t: Table, i: nat, cloned: bool, t': Table)
    requires Inv(t) && Step(t, Alloc(i, cloned), t')
    ensures Inv(t')
  {
    hide Inv;
    if np: nat :| np < NPROC && t.procs[np].state == Unused
                  && t' == With(With(t, np, Claimed(t.procs[np], t.next)), i, t.procs[i].(pc := Making(np, false, cloned))).(next := t.next + 1) {
      AllocTakes(t, i, np, cloned, t');
    }
  }

  lemma GiveUpKeeps(t: Table, i: nat, t': Table)
    requires Inv(t) && Step(t, GiveUp(i), t')
    ensures Inv(t')
  {
    hide SleepOk;
    var np := t.procs[i].pc.np;
    assert MakeOk(t, i) && MakeOk(t, np);
    MakeKeeps(t, i, np, t');
  }

  lemma BuildKeeps(t: Table, i: nat, d: nat, t': Table)
    requires Inv(t) && Step(t, Build(i, d), t')
    ensures Inv(t')
  {
    hide SleepOk;
    var np := t.procs[i].pc.np;
    assert MakeOk(t, i) && MakeOk(t, np);
    MakeKeeps(t, i, np, t');
  }

  lemma FinishKeeps(t: Table, i: nat, t': Table)
    requires Inv(t) && Step(t, Finish(i), t')
    ensures Inv(t')
  {
    hide SleepOk;
    var np := t.procs[i].pc.np;
    assert MakeOk(t, i) && MakeOk(t, np);
    MakeKeeps(t, i, np, t');
  }

  // --------------------------------------------------------------- runs

  /** Every action keeps the invariant. */
  lemma InvStep(t: Table, a: Action, t': Table)
    requires Inv(t) && Step(t, a, t')
    ensures Inv(t')
  {
    hide Inv;
    match a
    case Alloc(i, cloned) => AllocKeeps(t, i, cloned, t');
    case GiveUp(i) => GiveUpKeeps(t, i, t');
    case Build(i, d) => BuildKeeps(t, i, d, t');
    case Finish(i) => FinishKeeps(t, i, t');
    case Exit(i) => ExitKeeps(t, i, t');
    case Wait(i) => WaitKeeps(t, i, t');
    case Join(i) => JoinKeeps(t, i, t');
    case _ => SimpleSteps(t, a, t');
  }

  function Empty(): Proc {
    Proc(Unused, 0, NOBODY, 0, NoChan, false, User, First, 0)
  }

  /** After userinit: init is alone, RUNNABLE, with pid 1 and directory d. */
  function Boot(d: nat): Table {
    Table([Proc(Runnable, 1, NOBODY, d, NoChan, false, User, First, 1)] + seq(NPROC - 1, _ => Empty()), 2, {d})
  }

  lemma BootInv(d: nat)
    ensures Inv(Boot(d))
  {
  }

  ghost predicate Run(ts: seq<Table>, acts: seq<Action>) {
    && |ts| == |acts| + 1 && (exists d: nat :: ts[0] == Boot(d))
    && forall n: nat :: n < |acts| ==> Step(ts[n], acts[n], ts[n + 1])
  }

  /** In every state of every run. */
  lemma {:induction false} RunKeepsInv(ts: seq<Table>, acts: seq<Action>, n: nat)
    requires Run(ts, acts) && n < |ts|
    ensures Inv(ts[n])
  {
    if n == 0 {
      var d: nat :| ts[0] == Boot(d);
      BootInv(d);
    } else {
      RunKeepsInv(ts, acts, n - 1);
      InvStep(ts[n - 1], acts[n - 1], ts[n]);
    }
  }

  /** What the invariant says, spelled out. */
  lemma NoLostWakeup(ts: seq<Table>, acts: seq<Action>, n: nat, p: nat, c: nat)
    requires Run(ts, acts) && n < |ts| && p < NPROC && c < NPROC
    ensures var t := ts[n];
            && |t.procs| == NPROC
            && var q, k := t.procs[p], t.procs[c];
            && !(q.state == Sleeping && q.pc == InWait && k.parent == p && k.state == Zombie)
            && !(q.state == Sleeping && q.pc == InJoin && k.parent == p && k.state == Zombie && k.pgdir == q.pgdir)
            && (Built(k) && c != 0 ==> k.parent < NPROC && Alive(t.procs[k.parent]))
            && Alive(t.procs[0])
  {
    RunKeepsInv(ts, acts, n);
    var t := ts[n];
    assert SleepOk(t, p) && ParentOk(t, c) && ParentOk(t, 0);
    assert !ZombieChild(t, p, c) || ZombieChild(t, p, c);
    assert !ZombieThread(t, p, c) || ZombieThread(t, p, c);
  }

  lemma PidsEqual(m: nat, n: nat)
    ensures PidOf(m) == PidOf(n) <==> m % 0x1_0000_0000 == n % 0x1_0000_0000
  {
  }

  /**
   Two processes in use have the same pid exactly if the calls of allocproc that made them are a
   multiple of 2^32 apart; so never within the first 2^32 calls.
   */
  lemma PidsDistinct(ts: seq<Table>, acts: seq<Action>, n: nat, p: nat, q: nat)
    requires Run(ts, acts) && n < |ts| && p < NPROC && q < NPROC && p != q
    ensures |ts[n].procs| == NPROC
    ensures ts[n].procs[p].state != Unused && ts[n].procs[q].state != Unused ==>
              && (ts[n].procs[p].pid == ts[n].procs[q].pid <==> ts[n].procs[p].serial % 0x1_0000_0000 == ts[n].procs[q].serial % 0x1_0000_0000)
              && (ts[n].next <= 0x1_0000_0000 ==> ts[n].procs[p].pid != ts[n].procs[q].pid)
  {
    RunKeepsInv(ts, acts, n);
    PidsEqual(ts[n].procs[p].serial, ts[n].procs[q].serial);
  }
}
