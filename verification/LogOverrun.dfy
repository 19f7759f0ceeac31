/**
 What the size of the log does (log.c:215, mkfs.c:25). log_write reads the list length before
 it takes the lock, so the bound it checks can be out of date when the list grows, and with
 log.size <= LOGSIZE the reservation made by begin_op does not cover for that. With a larger log
 the list can grow to LOGSIZE blocks, all pinned, which are all the buffers there are (param.h:11-12):
 commit then finds none for its first log block.
 */
module LogOverrun {
  import opened Basics
  import opened Blocks
  import opened LogCrash
  import opened GroupCommit

  /** An operation within its budget is about to run into the panic at the head of log_write. */
  ghost predicate PanicsAt(s: State, i: nat) {
    i < |s.procs| && s.procs[i].InOp? && !s.procs[i].checked && s.procs[i].used < MAXOPBLOCKS && LogWritePanics(s)
  }

  /** The list has outgrown the log area, so write_log will write past its end. */
  ghost predicate Overrun(s: State) {
    |s.lh| >= s.l.size
  }

  lemma RunTwo(s: State, a: Action, b: Action)
    requires Enabled(s, a) && Enabled(Do(s, a), b)
    ensures CanRun(s, [a, b]) && End(s, [a, b]) == Do(Do(s, a), b)
    ensures WithinBudget(s, [a, b]) <==> InBudget(s, a) && InBudget(Do(s, a), b)
  {
    hide Do, Enabled, InBudget;
    RunOne(s, a);
    RunOne(Do(s, a), b);
    RunAppend(s, [a], [b]);
    assert [a] + [b] == [a, b];
  }

  /** A run of operations within budget, undisturbed by readers. */
  ghost predicate Plain(s: State, acts: seq<Action>) {
    CanRun(s, acts) && WithinBudget(s, acts) && forall a :: a in acts ==> !a.Read?
  }

  lemma PlainAppend(s: State, a: seq<Action>, b: seq<Action>)
    requires Plain(s, a) && Plain(End(s, a), b)
    ensures Plain(s, a + b) && End(s, a + b) == End(End(s, a), b)
  {
    RunAppend(s, a, b);
  }

  /** Distinct home blocks to log. */
  ghost predicate Targets(s: State, hs: seq<Word>) {
    Distinct(hs) && forall t :: 0 <= t < |hs| ==> Home(s.l, |s.disk|, hs[t])
  }

  /** Three operations have together logged the first n targets. */
  ghost predicate Filling(s: State, hs: seq<Word>, n: nat) {
    && n <= |hs| && s.lh == hs[..n] && Targets(s, hs)
    && !s.committing && s.outstanding == 3 && |s.procs| >= 3
    && (forall i :: 0 <= i < 3 ==> s.procs[i].InOp? && !s.procs[i].checked && s.procs[i].used <= MAXOPBLOCKS)
    && s.procs[0].used + s.procs[1].used + s.procs[2].used == n
  }

  /** Two of them have room for one more. */
  ghost predicate Filled(s: State, hs: seq<Word>, n: nat) {
    Filling(s, hs, n) && s.procs[1].used < MAXOPBLOCKS && s.procs[2].used < MAXOPBLOCKS
  }

  lemma Start(s0: State, hs: seq<Word>) returns (acts: seq<Action>)
    requires Init(s0) && |s0.procs| >= 3 && Targets(s0, hs)
    ensures Plain(s0, acts) && Filled(End(s0, acts), hs, 0) && End(s0, acts).l == s0.l && End(s0, acts).held == {}
  {
    acts := [BeginOp(0), BeginOp(1)] + [BeginOp(2)];
    RunTwo(s0, BeginOp(0), BeginOp(1));
    RunOne(End(s0, [BeginOp(0), BeginOp(1)]), BeginOp(2));
    RunAppend(s0, [BeginOp(0), BeginOp(1)], [BeginOp(2)]);
  }

  /** One more log_write by operation i, whose check and update are not interleaved. */
  lemma LogOne(s: State, hs: seq<Word>, n: nat, i: nat)
    requires Filling(s, hs, n) && n < |hs| && n < s.l.size - 1 && n < LOGSIZE
    requires i < 3 && s.procs[i].used < MAXOPBLOCKS
    ensures var b := LogWrite(i, hs[n], ZeroBlock());
            && Enabled(s, CheckLogWrite(i)) && Enabled(Do(s, CheckLogWrite(i)), b) && InBudget(s, CheckLogWrite(i))
            && var s' := Do(Do(s, CheckLogWrite(i)), b);
               && s'.l == s.l && s'.held == s.held && s'.lh == hs[..n + 1] && s'.procs == s.procs[i := InOp(s.procs[i].used + 1, false)]
               && s'.outstanding == 3 && !s'.committing && Targets(s', hs) && Filling(s', hs, n + 1)
  {
    assert hs[n] !in hs[..n];
    assert hs[..n] + [hs[n]] == hs[..n + 1];
  }

  lemma {:induction false} Fill(s0: State, hs: seq<Word>, n: nat) returns (acts: seq<Action>)
    requires Init(s0) && |s0.procs| >= 3 && Targets(s0, hs)
    requires n <= |hs| && n < s0.l.size && n <= LOGSIZE - 2
    ensures Plain(s0, acts) && Filled(End(s0, acts), hs, n) && End(s0, acts).l == s0.l && End(s0, acts).held == {}
  {
    hide Do, Enabled, Init;
    if n == 0 {
      acts := Start(s0, hs);
    } else {
      var before := Fill(s0, hs, n - 1);
      var s := End(s0, before);
      var i := if s.procs[0].used < MAXOPBLOCKS then 0 else if s.procs[1].used < MAXOPBLOCKS - 1 then 1 else 2;
      var two := [CheckLogWrite(i), LogWrite(i, hs[n - 1], ZeroBlock())];
      LogOne(s, hs, n - 1, i);
      RunTwo(s, two[0], two[1]);
      PlainAppend(s0, before, two);
      acts := before + two;
    }
  }

  /** Two operations pass the check one after the other, then both append. */
  lemma RaceOverruns(s: State, hs: seq<Word>) returns (acts: seq<Action>)
    requires 2 <= s.l.size <= LOGSIZE && |hs| >= s.l.size && Filled(s, hs, s.l.size - 2)
    ensures Plain(s, acts) && Overrun(End(s, acts)) && End(s, acts).l == s.l
  {
    var n := s.l.size - 2;
    var checks := [CheckLogWrite(1), CheckLogWrite(2)];
    RunTwo(s, checks[0], checks[1]);
    var c := End(s, checks);
    var writes := [LogWrite(1, hs[n], ZeroBlock()), LogWrite(2, hs[n + 1], ZeroBlock())];
    assert hs[n] !in hs[..n] && hs[n + 1] !in hs[..n] + [hs[n]];
    RunTwo(c, writes[0], writes[1]);
    PlainAppend(s, checks, writes);
    acts := checks + writes;
  }

  /** With 2 to LOGSIZE log blocks two interleaved log_writes overrun the log area. */
  lemma OverrunReachable(s0: State, hs: seq<Word>) returns (acts: seq<Action>)
    requires Init(s0) && |s0.procs| >= 3 && Targets(s0, hs)
    requires 2 <= s0.l.size <= LOGSIZE && |hs| >= s0.l.size
    ensures Plain(s0, acts) && Overrun(End(s0, acts)) && End(s0, acts).l == s0.l
  {
    hide Do, Enabled, Init;
    var before := Fill(s0, hs, s0.l.size - 2);
    var race := RaceOverruns(End(s0, before), hs);
    PlainAppend(s0, before, race);
    acts := before + race;
  }

  ghost predicate RunPanics(s0: State, acts: seq<Action>, i: nat) {
    CanRun(s0, acts) && WithinBudget(s0, acts) && PanicsAt(End(s0, acts), i)
  }

  ghost predicate RunOverruns(s0: State, acts: seq<Action>) {
    CanRun(s0, acts) && WithinBudget(s0, acts) && Overrun(End(s0, acts))
  }

  lemma PanicReachable(s0: State, hs: seq<Word>) returns (acts: seq<Action>, i: nat)
    requires Init(s0) && |s0.procs| >= 3 && Targets(s0, hs)
    requires s0.l.size <= LOGSIZE && |hs| >= s0.l.size
    ensures RunPanics(s0, acts, i) && Plain(s0, acts)
  {
    hide Do, Enabled;
    if s0.l.size == 1 {
      acts := Start(s0, hs);
      i := 1;
    } else {
      var n := s0.l.size - 2;
      var before := Fill(s0, hs, n);
      var s := End(s0, before);
      var two := [CheckLogWrite(1), LogWrite(1, hs[n], ZeroBlock())];
      LogOne(s, hs, n, 1);
      RunTwo(s, two[0], two[1]);
      PlainAppend(s0, before, two);
      acts, i := before + two, 2;
    }
  }

  /** log_write's panic is out of reach of every run within budget exactly when the log has more than LOGSIZE blocks. */
  lemma PanicFreeExactly(s0: State, hs: seq<Word>)
    requires Init(s0) && |s0.procs| >= 3 && Targets(s0, hs) && |hs| >= s0.l.size
    ensures s0.l.size > LOGSIZE <==> forall acts: seq<Action>, i: nat :: !RunPanics(s0, acts, i)
  {
    if s0.l.size > LOGSIZE {
      forall acts: seq<Action>, i: nat | CanRun(s0, acts) && WithinBudget(s0, acts)
        ensures !PanicsAt(End(s0, acts), i)
      {
        GroupCommitSafety(s0, acts, i);
        InitInv(s0);
        RunKeepsOrder(s0, acts);
      }
    } else {
      var acts, i := PanicReachable(s0, hs);
    }
  }

  /** The log area holds every list, in every run within budget, exactly when it has more than LOGSIZE blocks. */
  lemma NoOverrunExactly(s0: State, hs: seq<Word>)
    requires Init(s0) && |s0.procs| >= 3 && Targets(s0, hs) && |hs| >= s0.l.size
    requires s0.l.size >= 2
    ensures s0.l.size > LOGSIZE <==> forall acts: seq<Action> :: !RunOverruns(s0, acts)
  {
    if s0.l.size > LOGSIZE {
      forall acts: seq<Action> | CanRun(s0, acts) && WithinBudget(s0, acts)
        ensures !Overrun(End(s0, acts))
      {
        CommitterGoesOn(s0, acts, 0);
      }
    } else {
      var acts := OverrunReachable(s0, hs);
      assert RunOverruns(s0, acts);
    }
  }

  // ----------------------------------------------------- and the buffers

  /** The committer's next bread panics for want of a buffer. */
  ghost predicate StarvesAt(s: State, i: nat) {
    i < |s.procs| && s.procs[i].Committing? && s.lh != [] && !HasBuffer(s, s.procs[i].k)
  }

  ghost predicate RunStarves(s0: State, acts: seq<Action>, i: nat) {
    CanRun(s0, acts) && WithinBudget(s0, acts) && StarvesAt(End(s0, acts), i)
  }

  /** One more block after a run that has logged n. */
  lemma FillOne(s0: State, hs: seq<Word>, n: nat, before: seq<Action>, i: nat) returns (acts: seq<Action>)
    requires Plain(s0, before) && Filling(End(s0, before), hs, n) && End(s0, before).l == s0.l && End(s0, before).held == {}
    requires n < |hs| && n < LOGSIZE < s0.l.size && i < 3 && End(s0, before).procs[i].used < MAXOPBLOCKS
    ensures Plain(s0, acts) && Filling(End(s0, acts), hs, n + 1) && End(s0, acts).l == s0.l && End(s0, acts).held == {}
    ensures End(s0, acts).procs == End(s0, before).procs[i := InOp(End(s0, before).procs[i].used + 1, false)]
  {
    hide Do, Enabled;
    var s := End(s0, before);
    var two := [CheckLogWrite(i), LogWrite(i, hs[n], ZeroBlock())];
    LogOne(s, hs, n, i);
    RunTwo(s, two[0], two[1]);
    PlainAppend(s0, before, two);
    acts := before + two;
  }

  /** Three operations, each within its budget, fill the list. */
  lemma FillUp(s0: State, hs: seq<Word>) returns (acts: seq<Action>)
    requires Init(s0) && |s0.procs| >= 3 && Targets(s0, hs) && |hs| >= LOGSIZE && s0.l.size > LOGSIZE
    ensures Plain(s0, acts) && Filling(End(s0, acts), hs, LOGSIZE) && End(s0, acts).l == s0.l && End(s0, acts).held == {}
  {
    hide Do, Enabled, Init;
    var before := Fill(s0, hs, LOGSIZE - 2);
    var one := FillOne(s0, hs, LOGSIZE - 2, before, 1);
    acts := FillOne(s0, hs, LOGSIZE - 1, one, 2);
  }

  /** They end one after the other; the last one commits. */
  lemma EndAll(s: State, hs: seq<Word>) returns (acts: seq<Action>)
    requires Filling(s, hs, LOGSIZE)
    ensures Plain(s, acts)
    ensures var e := End(s, acts); |e.procs| >= 3 && e.procs[2] == Committing(0) && e.lh == s.lh && e.l == s.l && e.held == s.held
  {
    var two := [EndOp(0), EndOp(1)];
    RunTwo(s, two[0], two[1]);
    RunOne(End(s, two), EndOp(2));
    RunAppend(s, two, [EndOp(2)]);
    acts := two + [EndOp(2)];
  }

  lemma FullListStarves(s: State)
    requires Distinct(s.lh) && |s.lh| >= NBUF
    ensures !HasBuffer(s, 0)
  {
    DistinctCount(s.lh);
    SubsetSize(SetOf(s.lh), SetOf(s.lh) + s.held);
  }

  /** With more than LOGSIZE log blocks, operations within budget lead to a commit of NBUF blocks, which panics at its first bread. */
  lemma BuffersRunOut(s0: State, hs: seq<Word>) returns (acts: seq<Action>)
    requires Init(s0) && |s0.procs| >= 3 && Targets(s0, hs) && |hs| >= LOGSIZE && s0.l.size > LOGSIZE
    ensures RunStarves(s0, acts, 2) && Plain(s0, acts)
    ensures var e := End(s0, acts); e.procs[2] == Committing(0) && |e.lh| == NBUF && e.held == {}
  {
    hide Do, Enabled, Init;
    var before := FillUp(s0, hs);
    var ends := EndAll(End(s0, before), hs);
    PlainAppend(s0, before, ends);
    acts := before + ends;
    var e := End(s0, acts);
    assert e.lh == hs[..LOGSIZE];
    FullListStarves(e);
  }

  /** So there is no size of the log for which operations within budget, by themselves, never panic. */
  lemma NoSizeIsSafe(s0: State, hs: seq<Word>)
    requires Init(s0) && |s0.procs| >= 3 && Targets(s0, hs) && |hs| >= LOGSIZE && |hs| >= s0.l.size
    ensures exists acts: seq<Action>, i: nat :: Plain(s0, acts) && (RunPanics(s0, acts, i) || RunStarves(s0, acts, i))
  {
    hide Do, Enabled, Init;
    if s0.l.size <= LOGSIZE {
      var acts, i := PanicReachable(s0, hs);
    } else {
      var acts := BuffersRunOut(s0, hs);
    }
  }
}
