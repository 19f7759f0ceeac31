/**
 proc.c's table as it is changed in place: the scanning loops, each proved to take the step
 of the state machine that its caller is meant to take.
 */
module Processes {
  import opened ProcTable

  class Ptable {
    var procs: seq<Proc>
    var next: nat
    var live: set<nat>

    constructor (d: nat)
      ensures Value() == Boot(d)
    {
      procs, next, live := Boot(d).procs, 2, {d};
    }

    ghost function Value(): Table
      reads this
    {
      Table(procs, next, live)
    }

    /** allocproc, up to the release of the lock; NPROC if the table is full. */
    method Allocproc(i: nat, cloned: bool) returns (np: nat)
      requires |procs| == NPROC && i < NPROC && ReadyToCall(procs[i])
      modifies this
      ensures Step(old(Value()), Alloc(i, cloned), Value())
      ensures np < NPROC ==> procs[i].pc == Making(np, false, cloned)
      ensures np == NPROC ==> Value() == old(Value())
    {
      np := 0;
      while np < NPROC
        invariant np <= NPROC && Value() == old(Value())
        invariant forall k: nat :: k < np ==> procs[k].state != Unused
      {
        if procs[np].state == Unused {
          procs := procs[np := Claimed(procs[np], next)][i := procs[i].(pc := Making(np, false, cloned))];
          next := next + 1;
          assert old(procs)[np].state == Unused;
          return;
        }
        np := np + 1;
      }
    }

    /** wakeup1, which only touches the states of sleepers. */
    method Wakeup1(c: Chan)
      modifies this`procs
      ensures |procs| == |old(procs)| && forall k: nat :: k < |procs| ==> procs[k] == Woken(old(procs)[k], c)
    {
      var p := 0;
      while p < |procs|
        invariant p <= |procs| == |old(procs)|
        invariant forall k: nat :: k < |procs| ==> procs[k] == if k < p then Woken(old(procs)[k], c) else old(procs)[k]
      {
        if procs[p].state == Sleeping && procs[p].chan == c {
          procs := procs[p := procs[p].(state := Runnable)];
        }
        p := p + 1;
      }
    }

    method Wakeup(n: nat)
      requires |procs| == NPROC
      modifies this`procs
      ensures Step(old(Value()), ProcTable.Wakeup(n), Value())
    {
      Wakeup1(OtherChan(n));
    }

    method Kill(pid: int) returns (found: bool)
      requires |procs| == NPROC
      modifies this`procs
      ensures Step(old(Value()), ProcTable.Kill(pid), Value())
      ensures found <==> exists k: nat :: k < NPROC && old(procs)[k].pid == pid
    {
      var p := 0;
      while p < NPROC
        invariant p <= NPROC && procs == old(procs)
        invariant forall k: nat :: k < p ==> procs[k].pid != pid
      {
        if procs[p].pid == pid {
          var q := procs[p].(killed := true);
          if q.state == Sleeping {
            q := q.(state := Runnable);
          }
          procs := procs[p := q];
          assert KillStep(old(Value()), pid, Value()) by { assert old(procs)[p].pid == pid; }
          return true;
        }
        p := p + 1;
      }
      return false;
    }

    /** exit's loop body: slot p passed on to init if it is i's child, and init woken if that is a zombie. */
    method PassOn(i: nat, p: nat) returns (zombie: bool)
      requires p < |procs|
      modifies this`procs
      ensures zombie <==> old(procs)[p].parent == i && old(procs)[p].state == Zombie
      ensures |procs| == |old(procs)| && forall k: nat :: k < |procs| ==> procs[k] == Passed(old(procs)[k], i, zombie, k == p)
    {
      zombie := false;
      if procs[p].parent == i {
        procs := procs[p := procs[p].(parent := 0)];
        if procs[p].state == Zombie {
          zombie := true;
          Wakeup1(ProcChan(0));
        }
      }
    }

    /** exit, from taking the lock to the switch away. */
    method Exit(i: nat)
      requires |procs| == NPROC && 0 < i < NPROC && ReadyToCall(procs[i])
      modifies this`procs
      ensures Step(old(Value()), ProcTable.Exit(i), Value())
    {
      hide Woken;
      ghost var t := Value();
      Wakeup1(ProcChan(procs[i].parent));
      ghost var woken := procs;
      ghost var orphan := false;
      for p := 0 to NPROC
        invariant |procs| == NPROC
        invariant orphan <==> exists c: nat :: c < p && ZombieChild(t, i, c)
        invariant forall k: nat :: k < NPROC ==> procs[k] == Passed(woken[k], i, orphan, k < p)
      {
        ghost var before := procs;
        var zombie := PassOn(i, p);
        PassedParent(t.procs[p], ProcChan(t.procs[i].parent), i, orphan);
        assert zombie <==> ZombieChild(t, i, p);
        forall k: nat | k < NPROC
          ensures procs[k] == Passed(woken[k], i, orphan || zombie, k < p + 1)
        {
          PassedTwice(woken[k], i, orphan, zombie, k < p, k == p);
        }
        orphan := orphan || zombie;
      }
      assert orphan <==> exists c: nat :: ZombieChild(t, i, c);
      forall k: nat | k < NPROC
        ensures procs[k].(state := if k == i then Zombie else procs[k].state) == AfterExit(t, i, orphan, k)
      {
        PassedIsExit(t, i, orphan, k);
      }
      procs := procs[i := procs[i].(state := Zombie)];
    }

    /** One scan of wait: the pid of the child reaped, or -1, or asleep. */
    method WaitScan(i: nat) returns (pid: int, asleep: bool)
      requires |procs| == NPROC && i < NPROC && procs[i].state == Running && (procs[i].pc == User || procs[i].pc == InWait)
      modifies this
      ensures Step(old(Value()), Wait(i), Value())
      ensures asleep <==> procs[i].state == Sleeping
      ensures pid == -1 || exists z: nat :: WaitReaps(old(Value()), i, z, Value()) && pid == old(procs)[z].pid
      ensures (exists z: nat :: ZombieChild(old(Value()), i, z)) ==> exists z: nat :: WaitReaps(old(Value()), i, z, Value())
    {
      ghost var t := Value();
      var havekids := false;
      var p := 0;
      while p < NPROC
        invariant p <= NPROC && Value() == t
        invariant forall c: nat :: c < p ==> !ZombieChild(t, i, c)
        invariant havekids <==> exists c: nat :: c < p && procs[c].parent == i
      {
        if procs[p].parent == i {
          havekids := true;
          if procs[p].state == Zombie {
            pid, asleep := procs[p].pid, false;
            live := live - {procs[p].pgdir};
            procs := procs[p := Reaped(procs[p])];
            procs := procs[i := procs[i].(pc := User)];
            assert WaitReaps(t, i, p, Value());
            return;
          }
        }
        p := p + 1;
      }
      pid := -1;
      asleep := havekids && !procs[i].killed;
      procs := procs[i := if asleep then procs[i].(pc := InWait, chan := ProcChan(i), state := Sleeping) else procs[i].(pc := User)];
    }

    /** One scan of join. */
    method JoinScan(i: nat) returns (pid: int, asleep: bool)
      requires |procs| == NPROC && i < NPROC && procs[i].state == Running && (procs[i].pc == User || procs[i].pc == InJoin)
      modifies this`procs
      ensures Step(old(Value()), Join(i), Value())
      ensures asleep <==> procs[i].state == Sleeping
      ensures pid == -1 || exists z: nat :: JoinReaps(old(Value()), i, z, Value()) && pid == old(procs)[z].pid
      ensures (exists z: nat :: ZombieThread(old(Value()), i, z)) ==> exists z: nat :: JoinReaps(old(Value()), i, z, Value())
    {
      ghost var t := Value();
      var threads := false;
      var p := 0;
      while p < NPROC
        invariant p <= NPROC && Value() == t
        invariant forall c: nat :: c < p ==> !ZombieThread(t, i, c)
        invariant threads <==> exists c: nat :: c < p && ThreadOf(t, i, c)
      {
        if procs[p].parent == i && procs[p].pgdir == procs[i].pgdir {
          assert ThreadOf(t, i, p);
          threads := true;
          if procs[p].state == Zombie {
            pid, asleep := procs[p].pid, false;
            procs := procs[p := Reaped(procs[p])];
            procs := procs[i := procs[i].(pc := User)];
            assert JoinReaps(t, i, p, Value());
            return;
          }
        }
        p := p + 1;
      }
      pid := -1;
      asleep := threads && !procs[i].killed;
      procs := procs[i := if asleep then procs[i].(pc := InJoin, chan := ProcChan(i), state := Sleeping) else procs[i].(pc := User)];
    }
  }

  /** A slot after exit's loop has woken init (or not) and has passed the slot (or not). */
  function Passed(q: Proc, i: nat, orphan: bool, passed: bool): Proc {
    var q1 := if orphan then Woken(q, ProcChan(0)) else q;
    if passed && q1.parent == i then q1.(parent := 0) else q1
  }

  lemma PassedTwice(q: Proc, i: nat, o1: bool, o2: bool, p1: bool, p2: bool)
    requires i != 0
    ensures Passed(Passed(q, i, o1, p1), i, o2, p2) == Passed(q, i, o1 || o2, p1 || p2)
  {
  }

  /** Waking changes neither who the parent is nor who is a zombie. */
  lemma PassedParent(q: Proc, c: Chan, i: nat, orphan: bool)
    ensures var q1 := Passed(Woken(q, c), i, orphan, false);
            q1.parent == q.parent && (q1.state == Zombie <==> q.state == Zombie)
  {
  }

  lemma PassedIsExit(t: Table, i: nat, orphan: bool, k: nat)
    requires i < |t.procs| && k < |t.procs|
    ensures var q := Passed(Woken(t.procs[k], ProcChan(t.procs[i].parent)), i, orphan, true);
            q.(state := if k == i then Zombie else q.state) == AfterExit(t, i, orphan, k)
  {
  }
}
