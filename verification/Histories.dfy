/**
 Which histories of begin_op, log_write and end_op the log can have (log.c): exactly those in
 which begin_op admits, the check of log_write passes, and every commit finds a buffer for its
 log blocks. Operations of several processes may overlap, and the machine may crash and recover.
 */
module Histories {
  import opened Basics
  import opened Blocks
  import opened LogCrash
  import opened GroupCommit

  /** The list at the end of a history: the blocks logged since no operation was under way. */
  ghost function Batch(es: seq<Event>): seq<nat> {
    if es == [] then [] else BatchThen(Batch(es[..|es| - 1]), Open(es), es[|es| - 1])
  }

  ghost function BatchThen(h: seq<nat>, open: set<nat>, ev: Event): seq<nat> {
    match ev
    case Begun(_) => h
    case Logged(_, b, _) => if b in h then h else h + [b]
    case Ended(_) => if open == {} then [] else h
  }

  /** The list right after the last event of process i: its next check of log_write may see that, or more. */
  ghost function Seen(es: seq<Event>, i: nat): seq<nat> {
    if es == [] then [] else if es[|es| - 1].i == i then Batch(es) else Seen(es[..|es| - 1], i)
  }

  lemma BatchSnoc(es: seq<Event>, ev: Event)
    ensures Open(es + [ev]) == OpenThen(Open(es), ev)
    ensures Batch(es + [ev]) == BatchThen(Batch(es), Open(es + [ev]), ev)
    ensures forall i: nat :: Seen(es + [ev], i) == if ev.i == i then Batch(es + [ev]) else Seen(es, i)
  {
    HistorySnoc([], es, ev);
    assert (es + [ev])[..|es|] == es;
  }

  /** The check at the head of log_write passes. */
  predicate Room(l: Layout, h: seq<nat>) {
    |h| < LOGSIZE && |h| < l.size - 1
  }

  /** The event can come next: begin_op admits, or log_write finds the list short enough, at its check and at its update. */
  ghost predicate Allowed(l: Layout, procs: nat, blocks: nat, es: seq<Event>, ev: Event) {
    var h := Batch(es);
    match ev
    case Begun(i) => i < procs && i !in Open(es) && |h| + (|Open(es)| + 1) * MAXOPBLOCKS <= LOGSIZE
    case Logged(i, b, _) => i in Open(es) && Home(l, blocks, b) && Room(l, Seen(es, i)) && (b in h || Room(l, h))
    case Ended(i) => i in Open(es)
  }

  /** The last end_op leaves a buffer for the log blocks of the commit. */
  ghost predicate Small(es: seq<Event>, ev: Event) {
    ev.Ended? && Open(es) == {ev.i} ==> |Batch(es)| < NBUF
  }

  ghost predicate Possible(l: Layout, procs: nat, blocks: nat, es: seq<Event>) {
    forall k: nat :: k < |es| ==> Allowed(l, procs, blocks, es[..k], es[k])
  }

  /** Every commit of the history finds its buffers. */
  ghost predicate Roomy(es: seq<Event>) {
    forall k: nat :: k < |es| ==> Small(es[..k], es[k])
  }

  lemma PossibleSnoc(l: Layout, procs: nat, blocks: nat, es: seq<Event>, ev: Event)
    ensures Possible(l, procs, blocks, es + [ev]) <==> Possible(l, procs, blocks, es) && Allowed(l, procs, blocks, es, ev)
    ensures Roomy(es + [ev]) <==> Roomy(es) && Small(es, ev)
  {
    hide Allowed, Small;
    var all := es + [ev];
    assert all[..|es|] == es && all[|es|] == ev;
    assert forall k: nat :: k < |es| ==> all[..k] == es[..k] && all[k] == es[k];
  }

  lemma PossiblePrefix(l: Layout, procs: nat, blocks: nat, es: seq<Event>, n: nat)
    requires n <= |es|
    ensures Possible(l, procs, blocks, es) ==> Possible(l, procs, blocks, es[..n])
    ensures Roomy(es) ==> Roomy(es[..n])
  {
    hide Allowed, Small;
    assert forall k: nat :: k < n ==> es[..n][..k] == es[..k] && es[..n][k] == es[k];
  }

  // ---------------------------------------------------- a run for a history

  /** The log has come to the end of the history, is not committing, and the processes in c have made their next check. */
  ghost predicate Follows(s: State, s0: State, es: seq<Event>, c: set<nat>) {
    && Inv(s) && s.events == es && s.l == s0.l && |s.disk| == |s0.disk| && |s.procs| == |s0.procs|
    && !s.committing && s.outstanding == |Open(es)| && s.lh == Batch(es)
    && (forall i: nat :: i in Open(es) ==> i < |s.procs|)
    && forall i: nat :: i < |s.procs| ==>
         if i in Open(es) then s.procs[i].InOp? && (s.procs[i].checked <==> i in c) else s.procs[i] == Outside
  }

  /** These processes can check as soon as they have done what they did last. */
  ghost predicate Checkable(l: Layout, es: seq<Event>, c: set<nat>) {
    forall i: nat :: i in c ==> i in Open(es) && Room(l, Seen(es, i))
  }

  /** Who must have checked before the event, for those in c to have checked after it. */
  function Before(ev: Event, c: set<nat>): set<nat> {
    if ev.Logged? then c + {ev.i} else c - {ev.i}
  }

  lemma Starts(s0: State)
    requires Init(s0)
    ensures Follows(s0, s0, [], {})
  {
    InitInv(s0);
  }

  lemma CheckNext(s: State, s0: State, es: seq<Event>, i: nat, c: set<nat>)
    requires Follows(s, s0, es, c - {i}) && i in c && i in Open(es) && Room(s0.l, Batch(es))
    ensures Enabled(s, CheckLogWrite(i)) && Fresh(s, CheckLogWrite(i)) && Follows(Do(s, CheckLogWrite(i)), s0, es, c)
  {
    hide Inv;
    assert |Open(es)| >= 1;
    InvStep(s, CheckLogWrite(i));
  }

  lemma BeginNext(s: State, s0: State, es: seq<Event>, i: nat, c: set<nat>)
    requires Follows(s, s0, es, c - {i}) && Allowed(s0.l, |s0.procs|, |s0.disk|, es, Begun(i))
    ensures Enabled(s, BeginOp(i)) && Fresh(s, BeginOp(i)) && Follows(Do(s, BeginOp(i)), s0, es + [Begun(i)], c - {i})
  {
    hide Inv;
    BatchSnoc(es, Begun(i));
    InvStep(s, BeginOp(i));
  }

  lemma CallNext(s: State, s0: State, es: seq<Event>, i: nat, b: nat, data: Block, c: set<nat>)
    requires Follows(s, s0, es, c + {i}) && |s0.disk| <= TWO32
    requires Allowed(s0.l, |s0.procs|, |s0.disk|, es, Event.Logged(i, b, data))
    ensures b < TWO32
    ensures var a := LogWrite(i, b, data);
            Enabled(s, a) && Fresh(s, a) && Follows(Do(s, a), s0, es + [Event.Logged(i, b, data)], c - {i})
  {
    hide Inv;
    BatchSnoc(es, Event.Logged(i, b, data));
    InvStep(s, LogWrite(i, b, data));
  }

  /** An end_op, the last or not. */
  lemma EndNext(s: State, s0: State, es: seq<Event>, i: nat, c: set<nat>)
    requires Follows(s, s0, es, c - {i}) && i in Open(es)
    ensures Enabled(s, EndOp(i)) && Fresh(s, EndOp(i))
    ensures Open(es) != {i} ==> Follows(Do(s, EndOp(i)), s0, es + [Ended(i)], c - {i})
    ensures var e := Do(s, EndOp(i));
            Open(es) == {i} ==>
              && Inv(e) && e.procs == s.procs[i := Committing(0)] && e.outstanding == 0 && e.events == es + [Ended(i)]
              && e.lh == Batch(es) && e.l == s0.l && e.disk == s.disk
  {
    hide Inv;
    assert Open(es) == {i} + (Open(es) - {i});
    BatchSnoc(es, Ended(i));
    InvStep(s, EndOp(i));
  }

  lemma {:induction false} BlocksOnly(i: nat, hs: seq<set<nat>>)
    ensures forall a :: a in CommitBlocks(i, hs) ==> a.CommitBlock? || a.Read?
    decreases |hs|
  {
    if hs != [] {
      BlocksOnly(i, hs[..|hs| - 1]);
    }
  }

  /** The block writes of a commit call no log_write and add nothing to the history. */
  lemma {:induction false} BlocksKeepHistory(s: State, acts: seq<Action>)
    requires CanRun(s, acts) && forall a :: a in acts ==> a.CommitBlock? || a.Read?
    ensures FreshRun(s, acts) && End(s, acts).events == s.events
    decreases |acts|
  {
    hide Enabled, CommitWrite, Put;
    if acts != [] {
      assert acts[0] in acts;
      BlocksKeepHistory(Do(s, acts[0]), acts[1..]);
    }
  }

  lemma NoBlocks(i: nat)
    ensures CommitLength(0) == 0 && CommitBlocks(i, []) == []
  {
  }

  lemma Finishes(s: State, i: nat)
    requires i < |s.procs| && s.procs[i].Committing? && s.lh == []
    ensures Enabled(s, FinishCommit(i)) && Fresh(s, FinishCommit(i))
    ensures var e := Do(s, FinishCommit(i));
            && e.events == s.events && e.l == s.l && e.procs == s.procs[i := Outside] && e.disk == s.disk
            && e.outstanding == s.outstanding && !e.committing && e.lh == []
  {
  }

  lemma ListIsDistinct(s: State)
    requires Inv(s)
    ensures Distinct(s.lh)
  {
  }

  /** A commit of fewer than NBUF blocks, which nobody disturbs, to its end. */
  lemma CommitAll(s: State, i: nat) returns (acts: seq<Action>)
    requires Inv(s) && i < |s.procs| && s.procs[i] == Committing(0) && s.outstanding == 0 && |s.lh| < NBUF
    ensures CanRun(s, acts) && FreshRun(s, acts)
    ensures var e := End(s, acts);
            && e.events == s.events && e.l == s.l && e.procs == s.procs[i := Outside] && |e.disk| == |s.disk|
            && e.outstanding == 0 && !e.committing && e.lh == []
  {
    hide Enabled, Do, Fresh, Inv, CommitDisk, CanCommit, CommitBlocks;
    var hs: seq<set<nat>> := seq(CommitLength(|s.lh|), _ => {});
    var blocks := CommitBlocks(i, hs);
    BlocksOnly(i, hs);
    if s.lh == [] {
      NoBlocks(i);
    } else {
      ListIsDistinct(s);
      NobodyElse(s.lh, CommitLength(|s.lh|));
      CommitRun(s, i, hs);
    }
    BlocksKeepHistory(s, blocks);
    var e := End(s, blocks);
    Finishes(e, i);
    RunOne(e, FinishCommit(i));
    RunAppend(s, blocks, [FinishCommit(i)]);
    acts := blocks + [FinishCommit(i)];
  }

  /** The last end_op and the commit that follows. */
  lemma EndAndCommit(s: State, s0: State, es: seq<Event>, i: nat, c: set<nat>) returns (acts: seq<Action>)
    requires Follows(s, s0, es, c - {i}) && Open(es) == {i} && |Batch(es)| < NBUF
    ensures CanRun(s, acts) && FreshRun(s, acts) && Follows(End(s, acts), s0, es + [Ended(i)], c - {i})
  {
    hide Enabled, Do, Fresh, Inv;
    EndNext(s, s0, es, i, c);
    var e := Do(s, EndOp(i));
    RunOne(s, EndOp(i));
    var rest := CommitAll(e, i);
    RunAppend(s, [EndOp(i)], rest);
    acts := [EndOp(i)] + rest;
    RunKeepsInv(e, rest);
    BatchSnoc(es, Ended(i));
  }

  /** A step that nobody's check follows, or that of its own process. */
  lemma StepAndCheck(s: State, s0: State, a: Action, es: seq<Event>, ev: Event, c: set<nat>) returns (acts: seq<Action>)
    requires Enabled(s, a) && Fresh(s, a) && Follows(Do(s, a), s0, es + [ev], c - {ev.i}) && Checkable(s0.l, es + [ev], c)
    ensures CanRun(s, acts) && FreshRun(s, acts) && Follows(End(s, acts), s0, es + [ev], c)
  {
    hide Enabled, Do, Fresh, Follows;
    RunOne(s, a);
    if ev.i in c {
      BatchSnoc(es, ev);
      CheckNext(Do(s, a), s0, es + [ev], ev.i, c);
      RunOne(Do(s, a), CheckLogWrite(ev.i));
      RunAppend(s, [a], [CheckLogWrite(ev.i)]);
      acts := [a] + [CheckLogWrite(ev.i)];
    } else {
      assert c - {ev.i} == c;
      acts := [a];
    }
  }

  lemma Extend(s: State, s0: State, es: seq<Event>, ev: Event, c: set<nat>) returns (acts: seq<Action>)
    requires Init(s0) && Follows(s, s0, es, Before(ev, c)) && Checkable(s0.l, es + [ev], c)
    requires Allowed(s0.l, |s0.procs|, |s0.disk|, es, ev) && Small(es, ev)
    ensures CanRun(s, acts) && FreshRun(s, acts) && Follows(End(s, acts), s0, es + [ev], c)
  {
    hide Enabled, Do, Fresh, Follows, Inv;
    match ev
    case Begun(i) =>
      BeginNext(s, s0, es, i, c);
      acts := StepAndCheck(s, s0, BeginOp(i), es, ev, c);
    case Logged(i, b, data) =>
      CallNext(s, s0, es, i, b, data, c);
      acts := StepAndCheck(s, s0, LogWrite(i, b, data), es, ev, c);
    case Ended(i) =>
      BatchSnoc(es, ev);
      assert c - {i} == c;
      if Open(es) == {i} {
        acts := EndAndCommit(s, s0, es, i, c);
      } else {
        EndNext(s, s0, es, i, c);
        acts := StepAndCheck(s, s0, EndOp(i), es, ev, c);
      }
  }

  lemma CheckableBefore(l: Layout, procs: nat, blocks: nat, es: seq<Event>, ev: Event, c: set<nat>)
    requires Allowed(l, procs, blocks, es, ev) && Checkable(l, es + [ev], c)
    ensures Checkable(l, es, Before(ev, c))
  {
    BatchSnoc(es, ev);
  }

  /** Every history whose events are allowed and whose commits find their buffers has a run. */
  lemma {:induction false} HistoryRuns(s0: State, es: seq<Event>, c: set<nat>) returns (acts: seq<Action>)
    requires Init(s0) && Possible(s0.l, |s0.procs|, |s0.disk|, es) && Roomy(es) && Checkable(s0.l, es, c)
    ensures CanRun(s0, acts) && FreshRun(s0, acts) && Follows(End(s0, acts), s0, es, c)
    decreases |es|
  {
    hide Enabled, Do, Fresh, Follows, Init, Possible, Roomy, Allowed, Small;
    if es == [] {
      acts := [];
      Starts(s0);
      assert c == {};
    } else {
      var h, ev := es[..|es| - 1], es[|es| - 1];
      assert es == h + [ev];
      PossibleSnoc(s0.l, |s0.procs|, |s0.disk|, h, ev);
      CheckableBefore(s0.l, |s0.procs|, |s0.disk|, h, ev, c);
      var before := HistoryRuns(s0, h, Before(ev, c));
      var rest := Extend(End(s0, before), s0, h, ev, c);
      RunAppend(s0, before, rest);
      acts := before + rest;
    }
  }

  // ------------------------------------------------- what any run shows

  /** The commit after the last event, of the list as it was before it, unless that has been cleared. */
  ghost predicate Ending(s: State) {
    && s.events != [] && s.safe <= |s.events|
    && var h := s.events[..|s.events| - 1];
       && s.events[|h|].Ended? && Open(s.events) == {} && Roomy(h)
       && (s.lh == Batch(h) || (s.lh == [] && |Batch(h)| < NBUF))
       && (s.safe == |s.events| ==> |Batch(h)| < NBUF)
       && (forall j :: 0 <= j < |s.procs| && s.procs[j].Committing? && s.procs[j].k > 0 ==> |Batch(h)| < NBUF)
  }

  /** What the state of the log says about its history. */
  ghost predicate Shown(s: State) {
    && Possible(s.l, |s.procs|, |s.disk0|, s.events)
    && (s.safe == 0 || (s.safe <= |s.events| && s.events[s.safe - 1].Ended?))
    && (forall i: nat :: i < |s.procs| && s.procs[i].InOp? && s.procs[i].checked ==> Room(s.l, Seen(s.events, i)))
    && if s.committing then Ending(s) else Roomy(s.events) && s.lh == Batch(s.events)
  }

  lemma NothingBatched(es: seq<Event>)
    requires Open(es) == {} && (es == [] || es[|es| - 1].Ended?)
    ensures Batch(es) == []
  {
  }

  lemma InitShown(s0: State)
    requires Init(s0)
    ensures Shown(s0) && s0.disk0 == s0.disk
  {
  }

  lemma {:induction false} CountInside(ps: seq<Process>, inside: set<nat>)
    requires forall i: nat :: i in inside <==> i < |ps| && ps[i].InOp?
    ensures |inside| == OpCount(ps)
    decreases |ps|
  {
    if ps == [] {
      assert inside == {};
    } else {
      var n := |ps| - 1;
      CountInside(ps[..n], inside - {n});
    }
  }

  lemma ShownBegin(s: State, i: nat)
    requires Shown(s) && Inv(s) && Enabled(s, BeginOp(i))
    ensures Shown(Do(s, BeginOp(i)))
  {
    hide Inv, Possible, Roomy, Ending;
    InsideIsOpen(s);
    BatchSnoc(s.events, Begun(i));
    PossibleSnoc(s.l, |s.procs|, |s.disk0|, s.events, Begun(i));
  }

  lemma InsideIsOpen(s: State)
    requires Inv(s)
    ensures s.outstanding == |Open(s.events)| && |s.disk| == |s.disk0| && Distinct(s.lh) && s.safe <= |s.events|
    ensures forall i: nat :: i in Open(s.events) <==> i < |s.procs| && s.procs[i].InOp?
    ensures forall i: nat :: i < |s.procs| && s.procs[i].InOp? ==> !s.committing
    ensures Open(s.events[..s.safe]) == {}
  {
    CountInside(s.procs, Open(s.events));
    NobodyInside(s.procs);
  }

  lemma ShownCheck(s: State, i: nat)
    requires Shown(s) && Inv(s) && Enabled(s, CheckLogWrite(i))
    ensures Shown(Do(s, CheckLogWrite(i)))
  {
    hide Inv, Possible, Roomy, Ending;
    InsideIsOpen(s);
    SeenIsShorter(s.events, i);
  }

  /** What a process in an operation saw last is part of the list. */
  lemma {:induction false} SeenIsShorter(es: seq<Event>, i: nat)
    requires i in Open(es)
    ensures Seen(es, i) <= Batch(es)
  {
    var h := es[..|es| - 1];
    if es[|es| - 1].i != i {
      SeenIsShorter(h, i);
    }
  }

  lemma ShownCall(s: State, a: Action)
    requires Shown(s) && Inv(s) && Enabled(s, a) && Fresh(s, a) && a.LogWrite?
    ensures Shown(Do(s, a))
  {
    hide Inv, Possible, Roomy, Ending;
    var ev := Event.Logged(a.i, a.bno, a.data);
    InsideIsOpen(s);
    BatchSnoc(s.events, ev);
    PossibleSnoc(s.l, |s.procs|, |s.disk0|, s.events, ev);
  }

  lemma ShownEnd(s: State, i: nat)
    requires Shown(s) && Inv(s) && Enabled(s, EndOp(i))
    ensures Shown(Do(s, EndOp(i)))
  {
    hide Inv, Possible, Roomy;
    InsideIsOpen(s);
    assert Open(s.events) == {i} + (Open(s.events) - {i});
    BatchSnoc(s.events, Ended(i));
    PossibleSnoc(s.l, |s.procs|, |s.disk0|, s.events, Ended(i));
    OneCommitter(s);
    assert (s.events + [Ended(i)])[..|s.events|] == s.events;
  }

  lemma OneCommitter(s: State)
    requires Inv(s)
    ensures !s.committing ==> forall j :: 0 <= j < |s.procs| ==> !s.procs[j].Committing?
    ensures forall i, j :: 0 <= i < j < |s.procs| && s.procs[i].Committing? ==> !s.procs[j].Committing?
    ensures forall j :: 0 <= j < |s.procs| && s.procs[j].Committing? ==> s.committing
  {
  }

  /** The first write of a commit takes a buffer beside those of the listed blocks. */
  lemma FirstNeedsBuffer(s: State, i: nat)
    requires Inv(s) && i < |s.procs| && s.procs[i] == Committing(0) && HasBuffer(s, 0)
    ensures |s.lh| < NBUF
  {
    ListIsDistinct(s);
    DistinctCount(s.lh);
    SubsetSize(SetOf(s.lh), Pinned(s.lh, 0) + s.held);
  }

  lemma BlockWritten(s: State, i: nat)
    requires Enabled(s, CommitBlock(i))
    ensures i < |s.procs| && s.procs[i].Committing? && s.lh != [] && HasBuffer(s, s.procs[i].k)
    ensures var e := Do(s, CommitBlock(i));
            && e.procs == s.procs[i := Committing(s.procs[i].k + 1)] && e.l == s.l && e.disk0 == s.disk0 && e.events == s.events
            && e.committing == s.committing && (e.safe == s.safe || e.safe == |s.events|) && (e.lh == s.lh || e.lh == [])
  {
    hide CommitWrite, Put, Fits, HasBuffer;
  }

  lemma ShownBlock(s: State, i: nat)
    requires Shown(s) && Inv(s) && Enabled(s, CommitBlock(i))
    ensures Shown(Do(s, CommitBlock(i)))
  {
    hide Inv, Possible, Roomy, Enabled, Do, HasBuffer;
    BlockWritten(s, i);
    OneCommitter(s);
    if s.procs[i].k == 0 {
      FirstNeedsBuffer(s, i);
    }
  }

  lemma ShownFinish(s: State, i: nat)
    requires Shown(s) && Inv(s) && Enabled(s, FinishCommit(i))
    ensures Shown(Do(s, FinishCommit(i)))
  {
    hide Inv, Possible, Roomy;
    OneCommitter(s);
    RoomyAtEnd(s);
    NothingBatched(s.events);
  }

  /** Once the commit has found its buffers, the history up to here is as it should be. */
  lemma RoomyAtEnd(s: State)
    requires Ending(s) && (s.lh == [] || s.safe == |s.events|)
    ensures Roomy(s.events)
  {
    hide Roomy;
    var h := s.events[..|s.events| - 1];
    assert s.events == h + [s.events[|h|]];
    PossibleSnoc(s.l, 0, 0, h, s.events[|h|]);
  }

  lemma ShownCrash(s: State, ks: seq<nat>)
    requires Shown(s) && Inv(s) && Enabled(s, Crash(ks))
    ensures Shown(Do(s, Crash(ks)))
  {
    hide Inv, Possible, Roomy, GoodDisk, Recovered, AfterCrashes;
    InsideIsOpen(s);
    var n := s.safe;
    PossiblePrefix(s.l, |s.procs|, |s.disk0|, s.events, n);
    if s.committing {
      var h := s.events[..|s.events| - 1];
      if n == |s.events| {
        RoomyAtEnd(s);
        assert s.events[..n] == s.events;
      } else {
        PossiblePrefix(s.l, |s.procs|, |s.disk0|, h, n);
        assert h[..n] == s.events[..n];
      }
    }
    NothingBatched(s.events[..n]);
  }

  lemma ShownStep(s: State, a: Action)
    requires Shown(s) && Inv(s) && Enabled(s, a) && Fresh(s, a)
    ensures Shown(Do(s, a))
  {
    hide Shown, Inv, Enabled, Fresh, Do;
    match a
    case BeginOp(i) => ShownBegin(s, i);
    case CheckLogWrite(i) => ShownCheck(s, i);
    case LogWrite(_, _, _) => ShownCall(s, a);
    case EndOp(i) => ShownEnd(s, i);
    case CommitBlock(i) => ShownBlock(s, i);
    case FinishCommit(i) => ShownFinish(s, i);
    case Read(held) => ShownRead(s, held);
    case Crash(ks) => ShownCrash(s, ks);
  }

  lemma ShownRead(s: State, held: set<nat>)
    requires Shown(s)
    ensures Shown(Do(s, Read(held)))
  {
  }

  lemma StepKeepsLayout(s: State, a: Action)
    requires Enabled(s, a)
    ensures var e := Do(s, a); e.l == s.l && |e.procs| == |s.procs| && e.disk0 == s.disk0
  {
    hide CommitWrite, Put, Fits, HasBuffer, GoodDisk, Recovered, AfterCrashes;
  }

  lemma {:induction false} RunShown(s: State, acts: seq<Action>)
    requires Shown(s) && Inv(s) && CanRun(s, acts) && FreshRun(s, acts)
    ensures var e := End(s, acts); Shown(e) && Inv(e) && e.l == s.l && |e.procs| == |s.procs| && e.disk0 == s.disk0
    decreases |acts|
  {
    hide Shown, Inv, Enabled, Do, Fresh;
    if acts != [] {
      StepKeepsLayout(s, acts[0]);
      ShownStep(s, acts[0]);
      InvStep(s, acts[0]);
      RunShown(Do(s, acts[0]), acts[1..]);
    }
  }

  // ------------------------------------------------------------- exactly

  /** A run whose history this is. */
  ghost predicate Reaches(s0: State, acts: seq<Action>, es: seq<Event>) {
    CanRun(s0, acts) && FreshRun(s0, acts) && End(s0, acts).events == es
  }

  /** And that ends with the log idle, so that all of it has been committed. */
  ghost predicate Settles(s0: State, acts: seq<Action>, es: seq<Event>) {
    Reaches(s0, acts, es) && End(s0, acts).outstanding == 0 && !End(s0, acts).committing
  }

  /** The first part of a history that a run shows, and the step that completes it. */
  lemma ReachesRuns(s0: State, es: seq<Event>) returns (acts: seq<Action>)
    requires Init(s0) && Possible(s0.l, |s0.procs|, |s0.disk|, es) && (es != [] ==> Roomy(es[..|es| - 1]))
    ensures Reaches(s0, acts, es)
  {
    hide Enabled, Do, Fresh, Init, Possible, Roomy, Inv;
    if es == [] {
      acts := [];
      Starts(s0);
    } else {
      var h, ev := es[..|es| - 1], es[|es| - 1];
      assert es == h + [ev];
      PossibleSnoc(s0.l, |s0.procs|, |s0.disk|, h, ev);
      CheckableBefore(s0.l, |s0.procs|, |s0.disk|, h, ev, {});
      var before := HistoryRuns(s0, h, Before(ev, {}));
      var s := End(s0, before);
      var a := LastStep(s, s0, h, ev);
      RunOne(s, a);
      RunAppend(s0, before, [a]);
      acts := before + [a];
    }
  }

  lemma LastStep(s: State, s0: State, es: seq<Event>, ev: Event) returns (a: Action)
    requires Init(s0) && Follows(s, s0, es, Before(ev, {})) && Allowed(s0.l, |s0.procs|, |s0.disk|, es, ev)
    ensures Enabled(s, a) && Fresh(s, a) && Do(s, a).events == es + [ev]
  {
    hide Inv;
    match ev
    case Begun(i) =>
      BeginNext(s, s0, es, i, {});
      a := BeginOp(i);
    case Logged(i, b, data) =>
      CallNext(s, s0, es, i, b, data, {});
      a := LogWrite(i, b, data);
    case Ended(i) =>
      EndNext(s, s0, es, i, {});
      a := EndOp(i);
  }

  /** A history can be that of the log exactly if its events are allowed and every commit before the last event found its buffers. */
  lemma ReachesExactly(s0: State, es: seq<Event>)
    requires Init(s0)
    ensures (exists acts: seq<Action> :: Reaches(s0, acts, es)) <==>
            Possible(s0.l, |s0.procs|, |s0.disk|, es) && (es != [] ==> Roomy(es[..|es| - 1]))
  {
    hide Init, Possible, Roomy, CanRun, FreshRun, End, Inv;
    if Possible(s0.l, |s0.procs|, |s0.disk|, es) && (es != [] ==> Roomy(es[..|es| - 1])) {
      var acts := ReachesRuns(s0, es);
    }
    forall acts: seq<Action> | Reaches(s0, acts, es)
      ensures Possible(s0.l, |s0.procs|, |s0.disk|, es) && (es != [] ==> Roomy(es[..|es| - 1]))
    {
      Starts(s0);
      InitShown(s0);
      RunShown(s0, acts);
      if es != [] && !End(s0, acts).committing {
        PossiblePrefix(s0.l, |s0.procs|, |s0.disk|, es, |es| - 1);
      }
    }
  }

  /** It can be, and end with everything committed, exactly if besides all operations have ended and the last commit finds its buffers. */
  lemma SettlesExactly(s0: State, es: seq<Event>)
    requires Init(s0)
    ensures (exists acts: seq<Action> :: Settles(s0, acts, es)) <==>
            Possible(s0.l, |s0.procs|, |s0.disk|, es) && Roomy(es) && Open(es) == {}
  {
    hide Init, Possible, Roomy, CanRun, FreshRun, End, Inv;
    if Possible(s0.l, |s0.procs|, |s0.disk|, es) && Roomy(es) && Open(es) == {} {
      var acts := HistoryRuns(s0, es, {});
      assert Settles(s0, acts, es);
    }
    forall acts: seq<Action> | Settles(s0, acts, es)
      ensures Possible(s0.l, |s0.procs|, |s0.disk|, es) && Roomy(es) && Open(es) == {}
    {
      Starts(s0);
      InitShown(s0);
      RunShown(s0, acts);
      InsideIsOpen(End(s0, acts));
    }
  }
}
