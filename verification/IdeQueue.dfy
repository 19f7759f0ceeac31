/**
 The queued, interrupt-driven disk of ide.c as a state machine, shown to refine the
 synchronous iderw of memide.c, which is the Sync step of the buffer cache.
 Assumed of the device: no errors, and one interrupt for each request started.
 */
module IdeQueue {
  import opened Blocks
  import opened CacheModel

  /** The device: idle, working on what idestart sent it, or finished and about to interrupt. */
  datatype Drive = Idle | Working(write: bool, blockno: nat, data: Block) | Finished(data: Block)

  /** Where the process that holds a buffer is: outside iderw, or in it, awake or sleeping on the buffer. */
  datatype Phase = Away | Awake | Asleep

  /** The cache's disk is the physical one. */
  datatype Ide = Ide(cache: Cache, queue: seq<nat>, drive: Drive, phase: seq<Phase>)

  predicate Synced(b: Buf) {
    b.valid && !b.dirty
  }

  /** idestart */
  function Started(b: Buf): Drive {
    Working(b.dirty, b.blockno, b.data)
  }

  // ------------------------------------------------------------- actions

  datatype Action =
    | Client(a: Step)     // the rest of the kernel, on a buffer that is not in iderw
    | Enter(b: nat)       // iderw, up to its first sleep
    | Complete            // the device reads or writes the block
    | Interrupt           // ideintr
    | Rouse(b: nat)       // kill wakes the sleeper
    | Recheck(b: nat)     // it finds its request unfinished, and sleeps again
    | Return(b: nat)      // it finds its request finished

  /** What ideintr does to the buffer it takes from the queue. */
  function Landed(b: Buf, data: Block): Buf {
    if b.dirty then b.(dirty := false, valid := true) else b.(data := data, valid := true)
  }

  ghost predicate Next(s: Ide, a: Action, s': Ide) {
    var bufs := s.cache.bufs;
    match a
    case Client(c) =>
      !c.Sync? && CanDo(s.cache, c) && c.i < |s.phase| && s.phase[c.i] == Away && s' == s.(cache := Do(s.cache, c))
    case Enter(b) =>
      && CanDo(s.cache, Sync(b)) && b < |s.phase| && s.phase[b] == Away
      && s' == s.(queue := s.queue + [b], phase := s.phase[b := Asleep], drive := if s.queue == [] then Started(bufs[b]) else s.drive)
    case Complete =>
      && s.drive.Working? && s.drive.blockno < |s.cache.disk|
      && s' == if s.drive.write
               then s.(drive := Finished(s.drive.data), cache := s.cache.(disk := s.cache.disk[s.drive.blockno := s.drive.data]))
               else s.(drive := Finished(s.cache.disk[s.drive.blockno]))
    case Interrupt =>
      if s.queue == [] then s' == s
      else
        && s.drive.Finished? && s.queue[0] < |bufs| && s.queue[0] < |s.phase|
        && var b := s.queue[0];
           var bufs' := bufs[b := Landed(bufs[b], s.drive.data)];
           && (|s.queue| > 1 ==> s.queue[1] < |bufs|)
           && s' == Ide(s.cache.(bufs := bufs'), s.queue[1..], if |s.queue| > 1 then Started(bufs'[s.queue[1]]) else Idle,
                        s.phase[b := Awake])
    case Rouse(b) => b < |s.phase| && s.phase[b] == Asleep && s' == s.(phase := s.phase[b := Awake])
    case Recheck(b) => b < |s.phase| && b < |bufs| && s.phase[b] == Awake && !Synced(bufs[b]) && s' == s.(phase := s.phase[b := Asleep])
    case Return(b) => b < |s.phase| && b < |bufs| && s.phase[b] == Awake && Synced(bufs[b]) && s' == s.(phase := s.phase[b := Away])
  }

  // ----------------------------------------------------------- invariant

  ghost predicate Queued(s: Ide, b: nat) {
    b < |s.cache.bufs| && b < |s.phase| && s.phase[b] != Away && CanDo(s.cache, Sync(b))
  }

  /** The queue: busy, unsynced buffers, each once, the first being what the device works on. */
  ghost predicate QueueOk(s: Ide) {
    && (forall k: nat :: k < |s.queue| ==> Queued(s, s.queue[k]))
    && (forall j: nat, k: nat :: j < k < |s.queue| ==> s.queue[j] != s.queue[k])
    && (s.drive == Idle <==> s.queue == [])
    && (s.drive.Working? ==> s.drive == Started(s.cache.bufs[s.queue[0]]))
  }

  /** Whoever is in iderw is in the queue, or has a synced buffer and is awake. */
  ghost predicate PhaseOk(s: Ide, b: nat)
    requires b < |s.phase| == |s.cache.bufs|
  {
    s.phase[b] != Away && b !in s.queue ==> s.phase[b] == Awake && Synced(s.cache.bufs[b])
  }

  ghost predicate Inv(s: Ide) {
    && |s.phase| == |s.cache.bufs| && QueueOk(s)
    && forall b: nat :: b < |s.phase| ==> PhaseOk(s, b)
  }

  lemma ClientKeeps(s: Ide, a: Action, s': Ide)
    requires Inv(s) && Next(s, a, s') && a.Client?
    ensures Inv(s')
  {
    var i := a.a.i;
    assert i !in s.queue;
    forall k: nat | k < |s'.queue|
      ensures Queued(s', s'.queue[k])
    {
      assert Queued(s, s.queue[k]) && s.queue[k] != i;
    }
    forall b: nat | b < |s'.phase|
      ensures PhaseOk(s', b)
    {
      assert PhaseOk(s, b);
    }
  }

  lemma EnterKeeps(s: Ide, b: nat, s': Ide)
    requires Inv(s) && Next(s, Enter(b), s')
    ensures Inv(s')
  {
    assert b !in s.queue;
    forall k: nat | k < |s'.queue|
      ensures Queued(s', s'.queue[k])
    {
      assert k < |s.queue| ==> Queued(s, s.queue[k]);
    }
    forall c: nat | c < |s'.phase|
      ensures PhaseOk(s', c)
    {
      assert PhaseOk(s, c);
      assert c in s.queue ==> c in s'.queue;
      assert s'.queue[|s.queue|] == b;
    }
  }

  lemma InterruptKeeps(s: Ide, s': Ide)
    requires Inv(s) && Next(s, Interrupt, s')
    ensures Inv(s')
  {
    if s.queue != [] {
      var b := s.queue[0];
      forall k: nat | k < |s'.queue|
        ensures Queued(s', s'.queue[k])
      {
        assert Queued(s, s.queue[k + 1]);
      }
      forall c: nat | c < |s'.phase|
        ensures PhaseOk(s', c)
      {
        assert PhaseOk(s, c);
        assert c in s.queue <==> c == b || c in s.queue[1..];
      }
    }
  }

  lemma CompleteKeeps(s: Ide, s': Ide)
    requires Inv(s) && Next(s, Complete, s')
    ensures Inv(s')
  {
    forall k: nat | k < |s'.queue|
      ensures Queued(s', s'.queue[k])
    {
      assert Queued(s, s.queue[k]);
    }
    forall b: nat | b < |s'.phase|
      ensures PhaseOk(s', b)
    {
      assert PhaseOk(s, b);
    }
  }

  lemma PhaseKeeps(s: Ide, a: Action, s': Ide)
    requires Inv(s) && Next(s, a, s') && (a.Rouse? || a.Recheck? || a.Return?)
    ensures Inv(s')
  {
    forall k: nat | k < |s'.queue|
      ensures Queued(s', s'.queue[k])
    {
      assert Queued(s, s.queue[k]);
    }
    forall b: nat | b < |s'.phase|
      ensures PhaseOk(s', b)
    {
      assert PhaseOk(s, b);
      assert b in s.queue ==> exists k: nat :: k < |s.queue| && s.queue[k] == b && Queued(s, s.queue[k]);
    }
  }

  lemma InvStep(s: Ide, a: Action, s': Ide)
    requires Inv(s) && Next(s, a, s')
    ensures Inv(s')
  {
    match a
    case Client(_) => ClientKeeps(s, a, s');
    case Enter(b) => EnterKeeps(s, b, s');
    case Complete => CompleteKeeps(s, s');
    case Interrupt => InterruptKeeps(s, s');
    case _ => PhaseKeeps(s, a, s');
  }

  // ---------------------------------------------------------- refinement

  /** The synchronous view: a request takes effect when the device completes it. */
  function Abs(s: Ide): Cache {
    if s.drive.Finished? && s.queue != [] && s.queue[0] < |s.cache.bufs|
    then s.cache.(bufs := s.cache.bufs[s.queue[0] := Landed(s.cache.bufs[s.queue[0]], s.drive.data)])
    else s.cache
  }

  /** The device's completion is memide's iderw on the buffer at the head of the queue. */
  lemma CompleteIsSync(s: Ide, s': Ide)
    requires Inv(s) && Next(s, Complete, s')
    ensures s.queue != [] && CanDo(Abs(s), Sync(s.queue[0])) && Abs(s') == Do(Abs(s), Sync(s.queue[0]))
  {
    assert Queued(s, s.queue[0]);
  }

  lemma ClientIsClient(s: Ide, c: Step, s': Ide)
    requires Inv(s) && Next(s, Client(c), s')
    ensures CanDo(Abs(s), c) && Abs(s') == Do(Abs(s), c)
  {
    if s.drive.Finished? && s.queue != [] {
      var h := s.queue[0];
      assert Queued(s, h);
      var bufs, abs := s.cache.bufs, Abs(s).bufs;
      assert forall k: nat :: k < |bufs| ==> abs[k].dev == bufs[k].dev && abs[k].blockno == bufs[k].blockno && abs[k].busy == bufs[k].busy && Free(abs[k]) == Free(bufs[k]);
      if c.Get? {
        SameCached(s.cache, Abs(s), c.n);
        SameVictim(s.cache, Abs(s), c.i);
      }
    }
  }

  lemma SameCached(c: Cache, d: Cache, n: nat)
    requires |c.bufs| == |d.bufs| && forall k: nat :: k < |c.bufs| ==> d.bufs[k].dev == c.bufs[k].dev && d.bufs[k].blockno == c.bufs[k].blockno
    ensures Cached(d, n) == Cached(c, n)
  {
    if Cached(c, n) {
      var k :| 0 <= k < |c.bufs| && Caches(c.bufs[k], n);
      assert Caches(d.bufs[k], n);
    }
    if Cached(d, n) {
      var k :| 0 <= k < |d.bufs| && Caches(d.bufs[k], n);
      assert Caches(c.bufs[k], n);
    }
  }

  lemma SameVictim(c: Cache, d: Cache, i: nat)
    requires |c.bufs| == |d.bufs| && c.order == d.order && forall k: nat :: k < |c.bufs| ==> Free(d.bufs[k]) == Free(c.bufs[k])
    ensures IsVictim(c, i) ==> IsVictim(d, i)
  {
  }

  /** Every step is one of the synchronous machine, or none. */
  lemma Refines(s: Ide, a: Action, s': Ide)
    requires Inv(s) && Next(s, a, s')
    ensures Inv(s')
    ensures if a.Client? then CanDo(Abs(s), a.a) && Abs(s') == Do(Abs(s), a.a)
            else if a.Complete? then s.queue != [] && CanDo(Abs(s), Sync(s.queue[0])) && Abs(s') == Do(Abs(s), Sync(s.queue[0]))
            else Abs(s') == Abs(s)
  {
    InvStep(s, a, s');
    if a.Client? {
      ClientIsClient(s, a.a, s');
    } else if a.Complete? {
      CompleteIsSync(s, s');
    }
  }

  // ---------------------------------------------------------------- runs

  ghost predicate Run(ss: seq<Ide>, acts: seq<Action>) {
    |ss| == |acts| + 1 && forall n: nat :: n < |acts| ==> Next(ss[n], acts[n], ss[n + 1])
  }

  /** The steps of the synchronous machine that a run amounts to. */
  function SyncSteps(ss: seq<Ide>, acts: seq<Action>): seq<Step>
    requires |ss| == |acts| + 1
    decreases |acts|
  {
    if acts == [] then []
    else
      var rest := SyncSteps(ss[1..], acts[1..]);
      if acts[0].Client? then [acts[0].a] + rest
      else if acts[0].Complete? && ss[0].queue != [] then [Sync(ss[0].queue[0])] + rest
      else rest
  }

  /** Clients log or write each change before they release a buffer. */
  ghost predicate ClientsObey(ss: seq<Ide>, acts: seq<Action>)
    requires Run(ss, acts)
  {
    forall n: nat :: n < |acts| && acts[n].Client? ==> Next(ss[n], acts[n], ss[n + 1]) && Obeys(ss[n].cache, acts[n].a)
  }

  lemma ObeysAbs(s: Ide, c: Step, s': Ide)
    requires Inv(s) && Next(s, Client(c), s') && Obeys(s.cache, c)
    ensures CanDo(Abs(s), c) && Obeys(Abs(s), c)
  {
    ClientIsClient(s, c, s');
    assert c.i !in s.queue by {
      assert forall k: nat :: k < |s.queue| ==> Queued(s, s.queue[k]);
    }
    assert Abs(s).bufs[c.i] == s.cache.bufs[c.i];
  }

  /** A run with the queued disk is a run with the synchronous one, from and to the same states. */
  lemma {:induction false} RunRefines(ss: seq<Ide>, acts: seq<Action>)
    requires Run(ss, acts) && Inv(ss[0]) && ClientsObey(ss, acts)
    ensures Inv(ss[|acts|]) && CanRun(Abs(ss[0]), SyncSteps(ss, acts))
    ensures End(Abs(ss[0]), SyncSteps(ss, acts)) == Abs(ss[|acts|])
    decreases |acts|
  {
    hide Inv, CanDo, Obeys, Do, Abs;
    if acts != [] {
      var a, s, s' := acts[0], ss[0], ss[1];
      assert Next(ss[0], acts[0], ss[0 + 1]);
      Refines(s, a, s');
      forall n: nat | n < |acts[1..]|
        ensures Next(ss[1..][n], acts[1..][n], ss[1..][n + 1])
      {
        assert Next(ss[n + 1], acts[n + 1], ss[n + 1 + 1]);
      }
      assert ClientsObey(ss[1..], acts[1..]);
      RunRefines(ss[1..], acts[1..]);
      var rest := SyncSteps(ss[1..], acts[1..]);
      if a.Client? {
        ObeysAbs(s, a.a, s');
        assert ([a.a] + rest)[1..] == rest;
      } else if a.Complete? {
        SyncObeys(s, s');
        assert ([Sync(s.queue[0])] + rest)[1..] == rest;
      }
    }
  }

  lemma SyncObeys(s: Ide, s': Ide)
    requires Inv(s) && Next(s, Complete, s')
    ensures s.queue != [] && CanDo(Abs(s), Sync(s.queue[0])) && Obeys(Abs(s), Sync(s.queue[0]))
  {
    CompleteIsSync(s, s');
  }

  /** So the cache over the queued disk still shows every holder the latest contents of its block. */
  lemma QueuedReadersSeeLatest(ss: seq<Ide>, acts: seq<Action>, i: nat)
    requires Run(ss, acts) && Inv(ss[0]) && ClientsObey(ss, acts) && Init(ss[0].cache) && ss[0].drive == Idle && i < NBUF
    ensures var e := ss[|acts|];
            && CacheInv(Abs(e)) && |e.phase| == |e.cache.bufs| == NBUF && CanRun(ss[0].cache, SyncSteps(ss, acts))
            && (e.phase[i] == Away && e.cache.bufs[i].valid ==>
                  var n := e.cache.bufs[i].blockno;
                  n < |ss[0].cache.disk| && e.cache.bufs[i].data == Latest(ss[0].cache, SyncSteps(ss, acts), n, ss[0].cache.disk[n]))
  {
    RunRefines(ss, acts);
    assert Abs(ss[0]) == ss[0].cache;
    ReadersSeeLatest(ss[0].cache, SyncSteps(ss, acts), i);
    var e := ss[|acts|];
    assert forall k: nat :: k < |e.queue| ==> Queued(e, e.queue[k]);
  }

  /** The request that a step makes. */
  function Enters(a: Action): seq<nat> {
    if a.Enter? then [a.b] else []
  }

  /** The request that a step finishes with. */
  function Serves(s: Ide, a: Action): seq<nat> {
    if a.Interrupt? && s.queue != [] then [s.queue[0]] else []
  }

  /** The buffers in the order in which iderw was entered with them. */
  function Entered(acts: seq<Action>): seq<nat> {
    if acts == [] then [] else Entered(acts[..|acts| - 1]) + Enters(acts[|acts| - 1])
  }

  /** The buffers in the order in which ideintr finished with them. */
  function Served(ss: seq<Ide>, acts: seq<Action>): seq<nat>
    requires |ss| == |acts| + 1
    decreases |acts|
  {
    if acts == [] then []
    else
      var n := |acts| - 1;
      Served(ss[..n + 1], acts[..n]) + Serves(ss[n], acts[n])
  }

  lemma QueueStep(s: Ide, a: Action, s': Ide)
    requires Next(s, a, s')
    ensures s.queue + Enters(a) == Serves(s, a) + s'.queue
  {
    hide CanDo, Do, Synced, Landed, Started;
  }

  /** First in, first out: requests are finished in the order in which they were made, and those in the queue come next. */
  lemma {:induction false} Fifo(ss: seq<Ide>, acts: seq<Action>)
    requires Run(ss, acts)
    ensures ss[0].queue + Entered(acts) == Served(ss, acts) + ss[|acts|].queue
    decreases |acts|
  {
    hide Next, Enters, Serves;
    if acts != [] {
      var n := |acts| - 1;
      forall m: nat | m < n
        ensures Next(ss[..n + 1][m], acts[..n][m], ss[..n + 1][m + 1])
      {
        assert Next(ss[m], acts[m], ss[m + 1]);
      }
      Fifo(ss[..n + 1], acts[..n]);
      QueueStep(ss[n], acts[n], ss[n + 1]);
      var done, made := Served(ss[..n + 1], acts[..n]), Entered(acts[..n]);
      calc {
        ss[0].queue + (made + Enters(acts[n]));
        (ss[0].queue + made) + Enters(acts[n]);
        done + (ss[n].queue + Enters(acts[n]));
        done + (Serves(ss[n], acts[n]) + ss[n + 1].queue);
        (done + Serves(ss[n], acts[n])) + ss[n + 1].queue;
      }
    }
  }

  // ------------------------------------------------------ one call of iderw

  /** b's request has been queued and not yet carried out; its buffer is as it was on entry. */
  ghost predicate Pending(s: Ide, b: nat, was: Buf) {
    && b in s.queue && b < |s.cache.bufs| && s.cache.bufs[b] == was
    && (s.drive.Finished? ==> s.queue != [] && s.queue[0] != b)
  }

  /** Step k of the run carries out b's request, with memide's effect on the disk, as yet unseen in the buffer or not. */
  ghost predicate CarriedOut(ss: seq<Ide>, acts: seq<Action>, k: nat, b: nat, was: Buf)
    requires Run(ss, acts)
  {
    && k < |acts| && acts[k] == Complete && ss[k].queue != [] && ss[k].queue[0] == b
    && b < |ss[k].cache.bufs| && ss[k].cache.bufs[b] == was && CanDo(ss[k].cache, Sync(b))
    && ss[k + 1].cache.disk == Do(ss[k].cache, Sync(b)).disk
  }

  ghost predicate Landing(ss: seq<Ide>, acts: seq<Action>, k: nat, n: nat, b: nat, was: Buf)
    requires Run(ss, acts)
  {
    CarriedOut(ss, acts, k, b, was) && n <= |acts| && b < |Abs(ss[n]).bufs| && Abs(ss[n]).bufs[b] == Do(ss[k].cache, Sync(b)).bufs[b]
  }

  lemma {:induction false} RunInv(ss: seq<Ide>, acts: seq<Action>, n: nat)
    requires Run(ss, acts) && Inv(ss[0]) && n <= |acts|
    ensures Inv(ss[n])
  {
    if n > 0 {
      RunInv(ss, acts, n - 1);
      assert Next(ss[n - 1], acts[n - 1], ss[n - 1 + 1]);
      InvStep(ss[n - 1], acts[n - 1], ss[n]);
    }
  }

  /** A pending request stays pending until the device completes it. */
  lemma PendingStep(s: Ide, a: Action, s': Ide, b: nat, was: Buf)
    requires Inv(s) && Next(s, a, s') && Pending(s, b, was) && b < |s.phase| && s.phase[b] != Away
    ensures s.queue != []
    ensures if a == Complete && s.queue[0] == b
            then s.cache.bufs[b] == was && CanDo(s.cache, Sync(b)) && s'.cache.disk == Do(s.cache, Sync(b)).disk
                 && b < |Abs(s').bufs| && Abs(s').bufs[b] == Do(s.cache, Sync(b)).bufs[b]
            else Pending(s', b, was)
  {
    if a == Complete {
      assert Queued(s, s.queue[0]);
      CompleteIsSync(s, s');
    } else if a == Interrupt {
      assert b in s.queue[1..];
    } else if a.Enter? {
      assert b in s.queue + [a.b];
    }
  }

  /** The synchronous view of a buffer whose holder is in iderw changes only by its own request. */
  lemma LandedStays(s: Ide, a: Action, s': Ide, b: nat)
    requires Inv(s) && Next(s, a, s') && b < |s.phase| && s.phase[b] != Away && !(a == Complete && s.queue != [] && s.queue[0] == b)
    ensures b < |Abs(s').bufs| && b < |Abs(s).bufs| && Abs(s').bufs[b] == Abs(s).bufs[b]
  {
    Refines(s, a, s');
  }

  /** The run up to n, since b's holder entered iderw at step i: pending (k is n), or carried out at step k. */
  lemma {:induction false} Tracked(ss: seq<Ide>, acts: seq<Action>, i: nat, n: nat, b: nat) returns (k: nat)
    requires Run(ss, acts) && Inv(ss[0]) && i < n <= |acts| && acts[i] == Enter(b) && b < |ss[i].cache.bufs|
    requires forall m: nat :: i < m < n ==> acts[m] != Return(b)
    ensures i < k <= n && b < |ss[n].phase| && ss[n].phase[b] != Away
    ensures if k == n then Pending(ss[n], b, ss[i].cache.bufs[b]) else Landing(ss, acts, k, n, b, ss[i].cache.bufs[b])
    decreases n
  {
    hide Inv, Next, Do, CanDo, Abs;
    var was := ss[i].cache.bufs[b];
    RunInv(ss, acts, n - 1);
    var s, a, s' := ss[n - 1], acts[n - 1], ss[n];
    assert Next(ss[n - 1], acts[n - 1], ss[n - 1 + 1]);
    if n == i + 1 {
      k := n;
      EnterPending(s, b, s');
    } else {
      k := Tracked(ss, acts, i, n - 1, b);
      StaysIn(s, a, s', b);
      if k == n - 1 {
        PendingStep(s, a, s', b, was);
        k := if a == Complete && s.queue[0] == b then n - 1 else n;
      } else {
        AlreadyLanded(ss, acts, k, n - 1, b, was);
        LandedStays(s, a, s', b);
      }
    }
  }

  /** Only Return takes a process out of iderw. */
  lemma StaysIn(s: Ide, a: Action, s': Ide, b: nat)
    requires Inv(s) && Next(s, a, s') && b < |s.phase| && s.phase[b] != Away && a != Return(b)
    ensures b < |s'.phase| && s'.phase[b] != Away
  {
  }

  lemma EnterPending(s: Ide, b: nat, s': Ide)
    requires Inv(s) && Next(s, Enter(b), s')
    ensures b < |s.cache.bufs| && Pending(s', b, s.cache.bufs[b]) && b < |s'.phase| && s'.phase[b] != Away
  {
    assert s'.queue[|s.queue|] == b;
    assert forall k: nat :: k < |s.queue| ==> Queued(s, s.queue[k]);
  }

  /** The device does not carry out a request twice. */
  lemma AlreadyLanded(ss: seq<Ide>, acts: seq<Action>, k: nat, n: nat, b: nat, was: Buf)
    requires Run(ss, acts) && n < |acts| && Inv(ss[n]) && Landing(ss, acts, k, n, b, was)
    ensures !(acts[n] == Complete && ss[n].queue != [] && ss[n].queue[0] == b)
  {
    var s := ss[n];
    assert Next(ss[n], acts[n], ss[n + 1]);
    assert Synced(Do(ss[k].cache, Sync(b)).bufs[b]);
    assert s.queue != [] ==> Queued(s, s.queue[0]);
  }

  /**
   Every call of iderw that returns: somewhere between its start (step i) and its return (step j)
   the device carried out its request, with the effect of memide's iderw on the disk of that moment;
   on return the buffer is what memide's iderw makes of the buffer that was passed.
   */
  lemma ReturnEffect(ss: seq<Ide>, acts: seq<Action>, i: nat, j: nat, b: nat) returns (k: nat)
    requires Run(ss, acts) && Inv(ss[0]) && i < j < |acts| && acts[i] == Enter(b) && acts[j] == Return(b) && b < |ss[i].cache.bufs|
    requires forall m: nat :: i < m < j ==> acts[m] != Return(b)
    ensures i < k < j && CarriedOut(ss, acts, k, b, ss[i].cache.bufs[b])
    ensures b < |ss[j].cache.bufs| && ss[j].cache.bufs[b] == Do(ss[k].cache, Sync(b)).bufs[b]
  {
    k := Tracked(ss, acts, i, j, b);
    RunInv(ss, acts, j);
    var s := ss[j];
    assert Next(ss[j], acts[j], ss[j + 1]);
    assert b !in s.queue by {
      assert forall m: nat :: m < |s.queue| ==> Queued(s, s.queue[m]);
    }
  }

  /** Nobody sleeps in iderw for a request that has been carried out. */
  lemma NoLostWakeup(ss: seq<Ide>, acts: seq<Action>, n: nat, b: nat)
    requires Run(ss, acts) && Inv(ss[0]) && n <= |acts| && b < |ss[n].phase| && ss[n].phase[b] == Asleep
    ensures b in ss[n].queue && b < |ss[n].cache.bufs| && !Synced(ss[n].cache.bufs[b])
  {
    RunInv(ss, acts, n);
    assert PhaseOk(ss[n], b);
    var k: nat :| k < |ss[n].queue| && ss[n].queue[k] == b;
    assert Queued(ss[n], ss[n].queue[k]);
  }
}
