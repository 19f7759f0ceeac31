/**
 Sleeping in begin_op (log.c:124-140) and the wakeups of end_op (log.c:143-171): the protocol of
 GroupCommit with the processes that wait for admission.
 */
module LogSleep {
  import opened LogCrash
  import opened GroupCommit

  /** The protocol's state, and who sleeps in begin_op. */
  datatype Waiting = Waiting(s: State, asleep: set<nat>)

  datatype Move =
    | Act(a: Action)  // a step of the protocol
    | Doze(i: nat)    // begin_op finds that it must wait
    | Rouse(i: nat)   // kill wakes the sleeper

  /** begin_op's two reasons to wait. */
  ghost predicate Refused(s: State) {
    s.committing || |s.lh| + (s.outstanding + 1) * MAXOPBLOCKS > LOGSIZE
  }

  /** The process that takes a step of the protocol, if it is one. */
  function Actor(a: Action): set<nat> {
    if a.Read? || a.Crash? then {} else {a.i}
  }

  /** end_op wakes the sleepers when operations remain, and after a commit; a crash leaves none. */
  ghost predicate Wakes(s: State, a: Action) {
    (a.EndOp? && s.outstanding > 1) || a.FinishCommit? || a.Crash?
  }

  ghost predicate Next(w: Waiting, m: Move, w': Waiting) {
    match m
    case Act(a) =>
      && Enabled(w.s, a) && Actor(a) !! w.asleep
      && w' == Waiting(Do(w.s, a), if Wakes(w.s, a) then {} else w.asleep)
    case Doze(i) => i < |w.s.procs| && w.s.procs[i] == Outside && Refused(w.s) && w' == w.(asleep := w.asleep + {i})
    case Rouse(i) => w' == w.(asleep := w.asleep - {i})
  }

  /** Whoever sleeps in begin_op would be refused. */
  ghost predicate SleepersRefused(w: Waiting) {
    forall i: nat :: i in w.asleep ==> i < |w.s.procs| && w.s.procs[i] == Outside && Refused(w.s)
  }

  lemma RefusedStays(s: State, a: Action)
    requires Orderly(s) && Enabled(s, a) && Refused(s) && !Wakes(s, a)
    ensures Refused(Do(s, a))
  {
    if a.EndOp? {
      Recount(s.procs, a.i, Do(s, a).procs[a.i]);
    }
  }

  lemma SleepStep(w: Waiting, m: Move, w': Waiting)
    requires Orderly(w.s) && SleepersRefused(w) && Next(w, m, w')
    ensures SleepersRefused(w')
  {
    if m.Act? {
      if !Wakes(w.s, m.a) {
        if w.asleep != {} {
          var j :| j in w.asleep;
          RefusedStays(w.s, m.a);
        }
        forall i: nat | i in w'.asleep
          ensures i < |w'.s.procs| && w'.s.procs[i] == Outside
        {
          assert i !in Actor(m.a);
        }
      }
    }
  }

  ghost predicate Run(ws: seq<Waiting>, ms: seq<Move>) {
    && |ws| == |ms| + 1 && Init(ws[0].s) && ws[0].asleep == {}
    && forall n: nat :: n < |ms| ==> Next(ws[n], ms[n], ws[n + 1])
  }

  /** In every state of every run. */
  lemma {:induction false} NoLostWakeup(ws: seq<Waiting>, ms: seq<Move>, n: nat)
    requires Run(ws, ms) && n < |ws|
    ensures SleepersRefused(ws[n]) && Orderly(ws[n].s) && Recorded(ws[n].s)
  {
    if n == 0 {
      InitInv(ws[0].s);
    } else {
      NoLostWakeup(ws, ms, n - 1);
      RunStep(ws, ms, n - 1);
    }
  }

  lemma RunStep(ws: seq<Waiting>, ms: seq<Move>, n: nat)
    requires Run(ws, ms) && n < |ms| && SleepersRefused(ws[n]) && Orderly(ws[n].s) && Recorded(ws[n].s)
    ensures SleepersRefused(ws[n + 1]) && Orderly(ws[n + 1].s) && Recorded(ws[n + 1].s)
  {
    hide Orderly, Recorded, Enabled, SleepersRefused;
    assert Next(ws[n], ms[n], ws[n + 1]);
    SleepStep(ws[n], ms[n], ws[n + 1]);
    if ms[n].Act? {
      OrderStep(ws[n].s, ms[n].a);
    }
  }
}
