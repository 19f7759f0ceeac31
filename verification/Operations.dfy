/**
 File-system operations as the log sees them (log.c): between begin_op and end_op, a sequence
 of log_write calls. Histories of whole operations, and what an operation that runs by itself
 needs of the log to be completed and to be committed.
 */
module Operations {
  import opened Basics
  import opened Blocks
  import opened FsSteps
  import opened FileSystem
  import opened LogCrash
  import opened GroupCommit
  import opened Histories

  /** An operation of process i and its log_write calls. */
  datatype Operation = Operation(i: nat, updates: seq<Update>)

  /** The events of an operation that has not ended. */
  function Running(i: nat, us: seq<Update>): seq<Event> {
    [Begun(i)] + Calls(i, us)
  }

  function EventsOf(o: Operation): seq<Event> {
    Running(o.i, o.updates) + [Ended(o.i)]
  }

  /** Operations one after the other. */
  function History(ops: seq<Operation>): seq<Event> {
    if ops == [] then [] else History(ops[..|ops| - 1]) + EventsOf(ops[|ops| - 1])
  }

  ghost function After(d: Disk, ops: seq<Operation>): (e: Disk)
    ensures |e| == |d|
  {
    if ops == [] then d else Apply(After(d, ops[..|ops| - 1]), ops[|ops| - 1].updates)
  }

  lemma {:induction false} InsideOperation(d: Disk, h: seq<Event>, i: nat, us: seq<Update>)
    requires Open(h) == {}
    ensures Open(h + [Begun(i)] + Calls(i, us)) == {i}
    ensures Replay(d, h + [Begun(i)] + Calls(i, us)) == Apply(Replay(d, h), us)
  {
    var b := h + [Begun(i)];
    if us == [] {
      HistorySnoc(d, h, Begun(i));
      assert b + Calls(i, us) == b;
    } else {
      var n := |us| - 1;
      var ev := Event.Logged(i, us[n].bno, us[n].data);
      InsideOperation(d, h, i, us[..n]);
      assert b + Calls(i, us) == b + Calls(i, us[..n]) + [ev];
      HistorySnoc(d, b + Calls(i, us[..n]), ev);
    }
  }

  lemma WholeOperation(d: Disk, h: seq<Event>, o: Operation)
    requires Open(h) == {}
    ensures Open(h + EventsOf(o)) == {}
    ensures Replay(d, h + EventsOf(o)) == Apply(Replay(d, h), o.updates)
  {
    var b := h + [Begun(o.i)] + Calls(o.i, o.updates);
    InsideOperation(d, h, o.i, o.updates);
    HistorySnoc(d, b, Ended(o.i));
    assert h + EventsOf(o) == b + [Ended(o.i)];
  }

  lemma {:induction false} HistoryReplays(d: Disk, ops: seq<Operation>)
    ensures Open(History(ops)) == {} && Replay(d, History(ops)) == After(d, ops)
  {
    if ops != [] {
      HistoryReplays(d, ops[..|ops| - 1]);
      WholeOperation(d, History(ops[..|ops| - 1]), ops[|ops| - 1]);
    }
  }

  /** A prefix that ends strictly inside an operation leaves it open. */
  lemma CutInside(h: seq<Event>, o: Operation, cut: seq<Event>)
    requires Open(h) == {} && h < cut <= h + EventsOf(o)
    ensures cut == h + EventsOf(o) || Open(cut) == {o.i}
  {
    var m := |cut| - |h| - 1;
    if m <= |o.updates| {
      InsideOperation([], h, o.i, o.updates[..m]);
      assert cut == h + [Begun(o.i)] + Calls(o.i, o.updates[..m]);
    }
  }

  /** A prefix of a history that splits no operation consists of whole operations. */
  lemma {:induction false} WholeOperations(ops: seq<Operation>, cut: seq<Event>) returns (k: nat)
    requires cut <= History(ops) && Open(cut) == {}
    ensures k <= |ops| && cut == History(ops[..k])
  {
    k := |ops|;
    assert ops[..k] == ops;
    if ops != [] {
      var n := |ops| - 1;
      var h := History(ops[..n]);
      if |cut| <= |h| {
        k := WholeOperations(ops[..n], cut);
        assert ops[..n][..k] == ops[..k];
      } else {
        HistoryReplays([], ops[..n]);
        CutInside(h, ops[n], cut);
      }
    }
  }

  // ------------------------------------------------ an operation by itself

  /** The list after these calls of log_write, from an empty one. */
  function Listed(us: seq<Update>): seq<nat> {
    if us == [] then []
    else
      var h := Listed(us[..|us| - 1]);
      var b := us[|us| - 1].bno;
      if b in h then h else h + [b]
  }

  lemma {:induction false} ListedDistinct(us: seq<Update>)
    ensures Distinct(Listed(us))
  {
    if us != [] {
      ListedDistinct(us[..|us| - 1]);
    }
  }

  lemma {:induction false} ListedWithin(us: seq<Update>, blocks: set<nat>)
    requires forall k :: 0 <= k < |us| ==> us[k].bno in blocks
    ensures forall b :: b in Listed(us) ==> b in blocks
  {
    if us != [] {
      ListedWithin(us[..|us| - 1], blocks);
    }
  }

  /** Repeated calls for a block take one place in the list. */
  lemma ListedBound(us: seq<Update>, blocks: set<nat>)
    requires forall k :: 0 <= k < |us| ==> us[k].bno in blocks
    ensures |Listed(us)| <= |blocks|
  {
    ListedWithin(us, blocks);
    ListedDistinct(us);
    DistinctCount(Listed(us));
    SubsetSize(SetOf(Listed(us)), blocks);
  }

  predicate RoomAt(l: Layout, us: seq<Update>, k: nat)
    requires k <= |us|
  {
    Room(l, Listed(us[..k]))
  }

  /** No call finds the list at that guard. */
  ghost predicate NeverFull(l: Layout, us: seq<Update>) {
    forall k :: 0 <= k < |us| ==> RoomAt(l, us, k)
  }

  lemma {:induction false} NeverFullNext(l: Layout, us: seq<Update>, u: Update)
    ensures NeverFull(l, us + [u]) <==> NeverFull(l, us) && Room(l, Listed(us))
    ensures var h := Listed(us); Listed(us + [u]) == if u.bno in h then h else h + [u.bno]
  {
    hide Room, Listed;
    var vs := us + [u];
    ListedNext(us, u);
    assert forall k :: 0 <= k <= |us| ==> vs[..k] == us[..k];
    assert us[..|us|] == us;
    assert RoomAt(l, vs, |us|) == Room(l, Listed(us));
    assert forall k :: 0 <= k < |us| ==> RoomAt(l, vs, k) == RoomAt(l, us, k);
  }

  lemma ListedNext(us: seq<Update>, u: Update)
    ensures var h := Listed(us); Listed(us + [u]) == if u.bno in h then h else h + [u.bno]
  {
    assert (us + [u])[..|us|] == us;
  }

  /** A freshly booted log on which process o.i can make these calls. */
  ghost predicate Booted(s0: State, o: Operation) {
    && Init(s0) && o.i < |s0.procs|
    && forall k :: 0 <= k < |o.updates| ==> Home(s0.l, |s0.disk|, o.updates[k].bno)
  }

  // The calls of several operations that have all begun.

  /** Processes that begin one after the other. */
  function Begins(ps: seq<nat>): seq<Event> {
    seq(|ps|, k requires 0 <= k < |ps| => Begun(ps[k]))
  }

  /** The calls us, of which process who[k] makes the k-th. */
  function Interleaved(who: seq<nat>, us: seq<Update>): seq<Event>
    requires |who| == |us|
  {
    seq(|us|, k requires 0 <= k < |us| => Event.Logged(who[k], us[k].bno, us[k].data))
  }

  function Crowd(ps: seq<nat>, who: seq<nat>, us: seq<Update>): seq<Event>
    requires |who| == |us|
  {
    Begins(ps) + Interleaved(who, us)
  }

  /** begin_op admits these processes together, and the calls are theirs. */
  ghost predicate Admitted(l: Layout, procs: nat, blocks: nat, ps: seq<nat>, who: seq<nat>, us: seq<Update>) {
    && Distinct(ps) && |ps| * MAXOPBLOCKS <= LOGSIZE && |who| == |us|
    && (forall k :: 0 <= k < |ps| ==> ps[k] < procs)
    && forall k :: 0 <= k < |us| ==> who[k] in ps && Home(l, blocks, us[k].bno)
  }

  lemma NothingYet(l: Layout, procs: nat, blocks: nat)
    ensures Open([]) == {} && Batch([]) == [] && Possible(l, procs, blocks, []) && Roomy([]) && forall i: nat :: Seen([], i) == []
  {
  }

  lemma {:induction false} CrowdBegins(l: Layout, procs: nat, blocks: nat, ps: seq<nat>)
    requires Admitted(l, procs, blocks, ps, [], [])
    ensures var es := Begins(ps);
            Open(es) == SetOf(ps) && Batch(es) == [] && Possible(l, procs, blocks, es) && Roomy(es) && forall i: nat :: Seen(es, i) == []
  {
    hide Open, Batch, Seen, Possible, Roomy, SetOf;
    NothingYet(l, procs, blocks);
    if ps == [] {
      assert Begins(ps) == [];
      NobodyYet();
    } else {
      var n := |ps| - 1;
      CrowdBegins(l, procs, blocks, ps[..n]);
      assert Begins(ps) == Begins(ps[..n]) + [Begun(ps[n])];
      BatchSnoc(Begins(ps[..n]), Begun(ps[n]));
      PossibleSnoc(l, procs, blocks, Begins(ps[..n]), Begun(ps[n]));
      OneMore(ps);
    }
  }

  lemma NobodyYet()
    ensures SetOf([]) == {}
  {
  }

  lemma OneMore(ps: seq<nat>)
    requires ps != [] && Distinct(ps)
    ensures var n := |ps| - 1;
            SetOf(ps) == SetOf(ps[..n]) + {ps[n]} && ps[n] !in SetOf(ps[..n]) && |SetOf(ps[..n])| == n
  {
    var n := |ps| - 1;
    DistinctCount(ps[..n]);
    assert ps == ps[..n] + [ps[n]];
  }

  /** The list of such a history; what each of them saw last is the first part of it. */
  lemma {:induction false} CrowdLists(l: Layout, procs: nat, blocks: nat, ps: seq<nat>, who: seq<nat>, us: seq<Update>)
    requires Admitted(l, procs, blocks, ps, who, us)
    ensures var es := Crowd(ps, who, us);
            Open(es) == SetOf(ps) && Batch(es) == Listed(us) && Roomy(es) && forall i: nat :: Seen(es, i) <= Listed(us)
    decreases |us|
  {
    hide Open, Batch, Seen, Possible, Roomy, SetOf, Home, Listed;
    CrowdBegins(l, procs, blocks, ps);
    if us == [] {
      assert Crowd(ps, who, us) == Begins(ps);
      NothingListed();
    } else {
      var n := |us| - 1;
      var ev := Event.Logged(who[n], us[n].bno, us[n].data);
      var h := Crowd(ps, who[..n], us[..n]);
      CrowdLists(l, procs, blocks, ps, who[..n], us[..n]);
      assert Crowd(ps, who, us) == h + [ev];
      BatchSnoc(h, ev);
      PossibleSnoc(l, procs, blocks, h, ev);
      assert us == us[..n] + [us[n]];
      ListedNext(us[..n], us[n]);
    }
  }

  lemma CrowdNext(l: Layout, procs: nat, blocks: nat, ps: seq<nat>, who: seq<nat>, us: seq<Update>, i: nat, u: Update)
    requires Admitted(l, procs, blocks, ps, who, us) && i in ps && Home(l, blocks, u.bno) && Room(l, Listed(us))
    ensures Allowed(l, procs, blocks, Crowd(ps, who, us), Event.Logged(i, u.bno, u.data))
  {
    hide Open, Batch, Seen, Roomy, Home, Listed, Crowd;
    CrowdLists(l, procs, blocks, ps, who, us);
    assert Seen(Crowd(ps, who, us), i) <= Listed(us);
  }

  /** With room in the list at every call the history is possible. */
  lemma {:induction false} CrowdPossible(l: Layout, procs: nat, blocks: nat, ps: seq<nat>, who: seq<nat>, us: seq<Update>)
    requires Admitted(l, procs, blocks, ps, who, us) && NeverFull(l, us)
    ensures Possible(l, procs, blocks, Crowd(ps, who, us))
    decreases |us|
  {
    hide Possible, Roomy, Allowed, Home, NeverFull, Listed, Open, Batch, Seen;
    CrowdBegins(l, procs, blocks, ps);
    if us == [] {
      assert Crowd(ps, who, us) == Begins(ps);
    } else {
      var n := |us| - 1;
      var h := Crowd(ps, who[..n], us[..n]);
      assert us == us[..n] + [us[n]];
      NeverFullNext(l, us[..n], us[n]);
      CrowdPossible(l, procs, blocks, ps, who[..n], us[..n]);
      CrowdNext(l, procs, blocks, ps, who[..n], us[..n], who[n], us[n]);
      var ev := Event.Logged(who[n], us[n].bno, us[n].data);
      assert Crowd(ps, who, us) == h + [ev];
      PossibleSnoc(l, procs, blocks, h, ev);
    }
  }

  lemma {:induction false} FirstFull(l: Layout, us: seq<Update>) returns (k: nat)
    requires !NeverFull(l, us)
    ensures k < |us| && NeverFull(l, us[..k]) && !Room(l, Listed(us[..k]))
  {
    hide NeverFull, Room, Listed;
    var n := |us| - 1;
    NoneYet(l, us);
    assert us == us[..n] + [us[n]];
    NeverFullNext(l, us[..n], us[n]);
    if NeverFull(l, us[..n]) {
      k := n;
    } else {
      k := FirstFull(l, us[..n]);
      assert us[..n][..k] == us[..k];
    }
  }

  lemma NoneYet(l: Layout, us: seq<Update>)
    ensures us == [] ==> NeverFull(l, us)
  {
  }

  /**
   Operations that begin_op has admitted together, whatever their calls and whoever makes the next:
   if the list is ever too long for one of them, there is a run in which that call panics.
   */
  lemma CrowdPanics(s0: State, ps: seq<nat>, who: seq<nat>, us: seq<Update>) returns (acts: seq<Action>, k: nat)
    requires Init(s0) && Admitted(s0.l, |s0.procs|, |s0.disk|, ps, who, us) && !NeverFull(s0.l, us)
    ensures k < |us| && Reaches(s0, acts, Crowd(ps, who[..k], us[..k]))
    ensures var e := End(s0, acts);
            who[k] < |e.procs| && e.procs[who[k]].InOp? && !e.procs[who[k]].checked && LogWritePanics(e)
  {
    hide Init, Possible, Roomy, Home, NeverFull, Listed, CanRun, FreshRun, End, Inv;
    k := FirstFull(s0.l, us);
    CrowdPossible(s0.l, |s0.procs|, |s0.disk|, ps, who[..k], us[..k]);
    CrowdLists(s0.l, |s0.procs|, |s0.disk|, ps, who[..k], us[..k]);
    acts := HistoryRuns(s0, Crowd(ps, who[..k], us[..k]), {});
    assert who[k] in ps;
  }

  /** No log has room for more than LOGSIZE blocks. */
  lemma {:induction false} TooMany(l: Layout, us: seq<Update>)
    requires |Listed(us)| > LOGSIZE
    ensures !NeverFull(l, us)
  {
    hide NeverFull;
    var n := |us| - 1;
    assert us == us[..n] + [us[n]];
    NeverFullNext(l, us[..n], us[n]);
    if |Listed(us[..n])| > LOGSIZE {
      TooMany(l, us[..n]);
    }
  }

  /** The calls of these operations, one operation after the other, and who makes each. */
  function Updates(ops: seq<Operation>): seq<Update> {
    if ops == [] then [] else Updates(ops[..|ops| - 1]) + ops[|ops| - 1].updates
  }

  function Turns(ops: seq<Operation>): (who: seq<nat>)
    ensures |who| == |Updates(ops)|
  {
    if ops == [] then [] else Turns(ops[..|ops| - 1]) + seq(|ops[|ops| - 1].updates|, _ => ops[|ops| - 1].i)
  }

  function Processes(ops: seq<Operation>): seq<nat> {
    seq(|ops|, j requires 0 <= j < |ops| => ops[j].i)
  }

  lemma {:induction false} TurnsOf(ops: seq<Operation>, k: nat)
    requires k < |Updates(ops)|
    ensures exists j :: 0 <= j < |ops| && Turns(ops)[k] == ops[j].i && Updates(ops)[k] in ops[j].updates
  {
    var n := |ops| - 1;
    var before := Updates(ops[..n]);
    if k < |before| {
      TurnsOf(ops[..n], k);
      var j :| 0 <= j < n && Turns(ops[..n])[k] == ops[j].i && before[k] in ops[j].updates;
      assert Turns(ops)[k] == ops[j].i && Updates(ops)[k] in ops[j].updates;
    } else {
      assert Updates(ops)[k] == ops[n].updates[k - |before|] && Turns(ops)[k] == ops[n].i;
    }
  }

  lemma {:induction false} UpdatesHave(ops: seq<Operation>, j: nat, u: Update)
    requires j < |ops| && u in ops[j].updates
    ensures u in Updates(ops)
  {
    if j < |ops| - 1 {
      UpdatesHave(ops[..|ops| - 1], j, u);
    }
  }

  /** A block is listed exactly if there is a call for it. */
  lemma {:induction false} ListedHas(us: seq<Update>, b: nat)
    ensures b in Listed(us) <==> exists u :: u in us && u.bno == b
  {
    if us != [] {
      var n := |us| - 1;
      ListedHas(us[..n], b);
      assert us == us[..n] + [us[n]];
    }
  }

  /** The operations list at least these blocks, if each is listed by one of them. */
  lemma ListsTogether(ops: seq<Operation>, blocks: set<nat>)
    requires forall b: nat :: b in blocks ==> ListedBySome(ops, b)
    ensures |Listed(Updates(ops))| >= |blocks|
  {
    hide Listed, Updates;
    var all := Listed(Updates(ops));
    forall b: nat | b in blocks
      ensures b in SetOf(all)
    {
      var j :| 0 <= j < |ops| && b in Listed(ops[j].updates);
      ListedHas(ops[j].updates, b);
      var u :| u in ops[j].updates && u.bno == b;
      UpdatesHave(ops, j, u);
      ListedHas(Updates(ops), b);
    }
    ListedDistinct(Updates(ops));
    DistinctCount(all);
    SubsetSize(blocks, SetOf(all));
  }

  ghost predicate ListedBySome(ops: seq<Operation>, b: nat) {
    exists j :: 0 <= j < |ops| && b in Listed(ops[j].updates)
  }

  /**
   Operations that begin_op admits together and that between them list more than LOGSIZE blocks
   have, on a log of any size, a run into the panic of log_write.
   */
  lemma TogetherPanic(s0: State, ops: seq<Operation>, blocks: set<nat>) returns (acts: seq<Action>, k: nat)
    requires |ops| * MAXOPBLOCKS <= LOGSIZE && Distinct(Processes(ops)) && Init(s0) && forall j :: 0 <= j < |ops| ==> Booted(s0, ops[j])
    requires |blocks| > LOGSIZE && forall b: nat :: b in blocks ==> ListedBySome(ops, b)
    ensures k < |Updates(ops)| && Reaches(s0, acts, Crowd(Processes(ops), Turns(ops)[..k], Updates(ops)[..k]))
    ensures var e, i := End(s0, acts), Turns(ops)[k];
            i < |e.procs| && e.procs[i].InOp? && !e.procs[i].checked && LogWritePanics(e)
  {
    hide Init, NeverFull, Reaches, Listed, Updates, Turns, Home, ListedBySome;
    var us, who := Updates(ops), Turns(ops);
    ListsTogether(ops, blocks);
    TooMany(s0.l, us);
    forall m | 0 <= m < |us|
      ensures who[m] in Processes(ops) && Home(s0.l, |s0.disk|, us[m].bno)
    {
      TurnsOf(ops, m);
      var j :| 0 <= j < |ops| && who[m] == ops[j].i && us[m] in ops[j].updates;
      assert Booted(s0, ops[j]) && Processes(ops)[j] == who[m];
    }
    acts, k := CrowdPanics(s0, Processes(ops), who, us);
  }

  // ------------------------------------------------------------- exactly

  /** The history of an operation that runs alone. */
  lemma OperationHistory(s0: State, o: Operation)
    requires Booted(s0, o)
    ensures var es := EventsOf(o);
            && Open(es) == {} && Roomy(es[..|es| - 1]) && (Roomy(es) <==> |Listed(o.updates)| < NBUF)
            && (NeverFull(s0.l, o.updates) ==> Possible(s0.l, |s0.procs|, |s0.disk|, es))
  {
    hide Possible, Roomy, Home, NeverFull, Listed;
    var who := seq(|o.updates|, _ => o.i);
    var r := Running(o.i, o.updates);
    assert r == Crowd([o.i], who, o.updates);
    CrowdLists(s0.l, |s0.procs|, |s0.disk|, [o.i], who, o.updates);
    if NeverFull(s0.l, o.updates) {
      CrowdPossible(s0.l, |s0.procs|, |s0.disk|, [o.i], who, o.updates);
    }
    assert SetOf([o.i]) == {o.i};
    BatchSnoc(r, Ended(o.i));
    PossibleSnoc(s0.l, |s0.procs|, |s0.disk|, r, Ended(o.i));
    assert EventsOf(o)[..|r|] == r;
  }

  /** Each call of an operation that runs alone sees the list of those before it. */
  lemma {:induction false} AloneNeverFull(l: Layout, procs: nat, blocks: nat, i: nat, us: seq<Update>)
    requires Possible(l, procs, blocks, Running(i, us))
    ensures NeverFull(l, us) && Batch(Running(i, us)) == Listed(us) == Seen(Running(i, us), i)
    decreases |us|
  {
    hide Possible, Home, Listed;
    if us == [] {
      BatchSnoc([], Begun(i));
      assert Running(i, us) == [] + [Begun(i)];
      NothingListed();
    } else {
      var n := |us| - 1;
      var ev := Event.Logged(i, us[n].bno, us[n].data);
      var h := Running(i, us[..n]);
      assert Running(i, us) == h + [ev];
      PossibleSnoc(l, procs, blocks, h, ev);
      AloneNeverFull(l, procs, blocks, i, us[..n]);
      BatchSnoc(h, ev);
      assert us == us[..n] + [us[n]];
      NeverFullNext(l, us[..n], us[n]);
    }
  }

  lemma NothingListed()
    ensures Listed([]) == []
  {
  }

  /** An operation by itself can be completed exactly if no call finds the list at the guard of log_write. */
  lemma CompletesExactly(s0: State, o: Operation)
    requires Booted(s0, o)
    ensures (exists acts: seq<Action> :: Reaches(s0, acts, EventsOf(o))) <==> NeverFull(s0.l, o.updates)
  {
    hide Init, NeverFull, Possible, Roomy, Reaches;
    OperationHistory(s0, o);
    ReachesExactly(s0, EventsOf(o));
    if Possible(s0.l, |s0.procs|, |s0.disk|, EventsOf(o)) {
      StartsPossible(s0, o);
    }
  }

  lemma StartsPossible(s0: State, o: Operation)
    requires Possible(s0.l, |s0.procs|, |s0.disk|, EventsOf(o))
    ensures NeverFull(s0.l, o.updates)
  {
    hide Possible, NeverFull;
    var r := Running(o.i, o.updates);
    PossibleSnoc(s0.l, |s0.procs|, |s0.disk|, r, Ended(o.i));
    AloneNeverFull(s0.l, |s0.procs|, |s0.disk|, o.i, o.updates);
  }

  /** And committed exactly if, besides, the blocks it lists are fewer than the buffers. */
  lemma CommitsExactly(s0: State, o: Operation)
    requires Booted(s0, o)
    ensures (exists acts: seq<Action> :: Settles(s0, acts, EventsOf(o))) <==> NeverFull(s0.l, o.updates) && |Listed(o.updates)| < NBUF
  {
    hide Init, NeverFull, Possible, Roomy, Settles, Listed;
    OperationHistory(s0, o);
    SettlesExactly(s0, EventsOf(o));
    if Possible(s0.l, |s0.procs|, |s0.disk|, EventsOf(o)) {
      StartsPossible(s0, o);
    }
  }
}
