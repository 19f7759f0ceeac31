/**
 pipe.c as a state machine. A step is what a process does between getting the pipe's lock and
 giving it up by sleeping or returning. The counters are 32-bit and wrap around.
 */
module PipeModel {
  import opened Blocks

  const PIPESIZE: nat := 512

  /** The ring buffer, and every byte ever written and read. */
  datatype Ring = Ring(data: seq<Byte>, nread: Word, nwrite: Word, written: seq<Byte>, read: seq<Byte>)

  /** What has been read is a prefix of what has been written; the rest is in the buffer. */
  ghost predicate RingOk(r: Ring) {
    && |r.data| == PIPESIZE && |r.read| <= |r.written| <= |r.read| + PIPESIZE
    && r.read == r.written[..|r.read|]
    && r.nread == |r.read| % TWO32 && r.nwrite == |r.written| % TWO32
    && forall j: nat :: |r.read| <= j < |r.written| ==> r.data[j % PIPESIZE] == r.written[j]
  }

  predicate Full(r: Ring) {
    r.nwrite == (r.nread + PIPESIZE) % TWO32
  }

  predicate Drained(r: Ring) {
    r.nread == r.nwrite
  }

  /** The 32-bit comparisons tell the truth, however often the counters have wrapped. */
  lemma Counters(r: Ring)
    requires RingOk(r)
    ensures Full(r) <==> |r.written| - |r.read| == PIPESIZE
    ensures Drained(r) <==> |r.written| == |r.read|
    ensures r.nwrite % PIPESIZE == |r.written| % PIPESIZE && r.nread % PIPESIZE == |r.read| % PIPESIZE
    ensures (r.nwrite - r.nread) % TWO32 == |r.written| - |r.read|
  {
    Apart(|r.read|, |r.written| - |r.read|);
    Wrap(|r.written|);
    Wrap(|r.read|);
  }

  /** Two counts at most 512 apart, modulo 2^32. */
  lemma Apart(d: nat, c: nat)
    requires c <= PIPESIZE
    ensures var w, e := (d + c) % TWO32, d % TWO32;
            && (w == (e + PIPESIZE) % TWO32 <==> c == PIPESIZE) && (e == w <==> c == 0) && (w - e) % TWO32 == c
  {
    var w, e := (d + c) % TWO32, d % TWO32;
    assert d + c == TWO32 * (d / TWO32) + (e + c);
    assert w == if e + c < TWO32 then e + c else e + c - TWO32;
  }

  lemma Wrap(n: nat)
    ensures n % TWO32 % PIPESIZE == n % PIPESIZE && (n + 1) % TWO32 == (n % TWO32 + 1) % TWO32
  {
    assert n == PIPESIZE * (0x80_0000 * (n / TWO32)) + n % TWO32;
  }

  function Put(r: Ring, b: Byte): Ring
    requires |r.data| == PIPESIZE
  {
    Ring(r.data[r.nwrite % PIPESIZE := b], r.nread, (r.nwrite + 1) % TWO32, r.written + [b], r.read)
  }

  lemma PutOk(r: Ring, b: Byte)
    requires RingOk(r) && |r.written| - |r.read| < PIPESIZE
    ensures RingOk(Put(r, b)) && Put(r, b).written == r.written + [b] && Put(r, b).read == r.read
  {
    Wrap(|r.written|);
    var r' := Put(r, b);
    forall j: nat | |r'.read| <= j < |r'.written|
      ensures r'.data[j % PIPESIZE] == r'.written[j]
    {
      if j < |r.written| {
        DifferentCells(j, |r.written|);
      }
    }
  }

  lemma DifferentCells(j: nat, k: nat)
    requires j < k < j + PIPESIZE
    ensures j % PIPESIZE != k % PIPESIZE
  {
  }

  function Take(r: Ring): Ring
    requires |r.data| == PIPESIZE
  {
    Ring(r.data, (r.nread + 1) % TWO32, r.nwrite, r.written, r.read + [r.data[r.nread % PIPESIZE]])
  }

  lemma TakeOk(r: Ring)
    requires RingOk(r) && |r.read| < |r.written|
    ensures RingOk(Take(r)) && Take(r).read == r.written[..|r.read| + 1] && Take(r).written == r.written
  {
    Wrap(|r.read|);
    assert r.written[..|r.read| + 1] == r.written[..|r.read|] + [r.written[|r.read|]];
  }

  /** Bytes put one after another. */
  function PutAll(r: Ring, bytes: seq<Byte>): (r': Ring)
    requires |r.data| == PIPESIZE
    ensures |r'.data| == PIPESIZE
    decreases |bytes|
  {
    if bytes == [] then r else Put(PutAll(r, bytes[..|bytes| - 1]), bytes[|bytes| - 1])
  }

  lemma {:induction false} PutAllOk(r: Ring, bytes: seq<Byte>)
    requires |r.data| == PIPESIZE && RingOk(r) && |r.written| - |r.read| + |bytes| <= PIPESIZE
    ensures var r' := PutAll(r, bytes); RingOk(r') && r'.written == r.written + bytes && r'.read == r.read
    decreases |bytes|
  {
    hide RingOk, Put;
    if bytes != [] {
      var n := |bytes| - 1;
      PutAllOk(r, bytes[..n]);
      PutOk(PutAll(r, bytes[..n]), bytes[n]);
      assert bytes == bytes[..n] + [bytes[n]];
    }
  }

  lemma ReadPrefix(r: Ring)
    requires RingOk(r)
    ensures |r.read| <= |r.written| && r.read == r.written[..|r.read|]
  {
  }

  function TakeAll(r: Ring, n: nat): (r': Ring)
    requires |r.data| == PIPESIZE
    ensures |r'.data| == PIPESIZE
  {
    if n == 0 then r else Take(TakeAll(r, n - 1))
  }

  lemma {:induction false} TakeAllOk(r: Ring, n: nat)
    requires |r.data| == PIPESIZE && RingOk(r) && n <= |r.written| - |r.read|
    ensures var r' := TakeAll(r, n); RingOk(r') && r'.written == r.written && r'.read == r.written[..|r.read| + n]
  {
    hide RingOk, Take;
    ReadPrefix(r);
    if n > 0 {
      TakeAllOk(r, n - 1);
      TakeOk(TakeAll(r, n - 1));
    }
  }

  // ------------------------------------------------------- the processes

  /** In the pipe code: with bytes still to write, or asking for at most n bytes. */
  datatype Proc = Outside | Writing(bytes: seq<Byte>, asleep: bool) | Reading(n: nat, asleep: bool)

  datatype State = State(ring: Ring, readopen: bool, writeopen: bool, procs: seq<Proc>)

  datatype Action =
    | EnterWrite(p: nat, bytes: seq<Byte>)
    | EnterRead(p: nat, n: nat)
    | Write(p: nat, killed: bool)   // pipewrite, until it sleeps or returns
    | Read(p: nat, killed: bool)    // piperead, likewise
    | Close(writable: bool)
    | Rouse(p: nat)                 // kill wakes a sleeper

  function WokenReader(q: Proc): Proc {
    if q.Reading? then Reading(q.n, false) else q
  }

  function WokenWriter(q: Proc): Proc {
    if q.Writing? then Writing(q.bytes, false) else q
  }

  function Room(r: Ring): int {
    PIPESIZE - (|r.written| - |r.read|)
  }

  function Min(a: int, b: int): int {
    if a < b then a else b
  }

  /** procs' is procs with p replaced by q, and everybody else treated by wakeup. */
  ghost predicate Others(procs: seq<Proc>, p: nat, q: Proc, wakeReaders: bool, wakeWriters: bool, procs': seq<Proc>) {
    && |procs'| == |procs| && p < |procs| && procs'[p] == q
    && forall k: nat :: k < |procs| && k != p ==>
         procs'[k] == (if wakeReaders then WokenReader(procs[k]) else if wakeWriters then WokenWriter(procs[k]) else procs[k])
  }

  /** Copies what fits; then returns if that was all, gives up if nobody can read or on kill, or sleeps. */
  ghost predicate WriteStep(s: State, p: nat, killed: bool, s': State)
    requires RingOk(s.ring) && p < |s.procs| && s.procs[p].Writing?
  {
    var bytes := s.procs[p].bytes;
    var n := Min(|bytes|, Room(s.ring));
    && s'.ring == PutAll(s.ring, bytes[..n]) && s'.readopen == s.readopen && s'.writeopen == s.writeopen
    && if n == |bytes| then Others(s.procs, p, Outside, true, false, s'.procs)
       else if !s.readopen || killed then Others(s.procs, p, Outside, false, false, s'.procs)
       else Others(s.procs, p, Writing(bytes[n..], true), true, false, s'.procs)
  }

  ghost predicate ReadStep(s: State, p: nat, killed: bool, s': State)
    requires RingOk(s.ring) && p < |s.procs| && s.procs[p].Reading?
  {
    var avail := |s.ring.written| - |s.ring.read|;
    && s'.readopen == s.readopen && s'.writeopen == s.writeopen
    && if avail == 0 && s.writeopen
       then s'.ring == s.ring && Others(s.procs, p, if killed then Outside else Reading(s.procs[p].n, true), false, false, s'.procs)
       else s'.ring == TakeAll(s.ring, Min(s.procs[p].n, avail)) && Others(s.procs, p, Outside, false, true, s'.procs)
  }

  /** A process inside holds its end open, so an end is closed only when nobody is inside at it. */
  ghost predicate CloseStep(s: State, writable: bool, s': State) {
    && s'.ring == s.ring && |s'.procs| == |s.procs|
    && (if writable then s'.writeopen == false && s'.readopen == s.readopen else s'.readopen == false && s'.writeopen == s.writeopen)
    && forall k: nat :: k < |s.procs| ==>
         && (if writable then !s.procs[k].Writing? else !s.procs[k].Reading?)
         && s'.procs[k] == if writable then WokenReader(s.procs[k]) else WokenWriter(s.procs[k])
  }

  ghost predicate Next(s: State, a: Action, s': State) {
    && RingOk(s.ring)
    && match a
       case EnterWrite(p, bytes) => p < |s.procs| && s.procs[p].Outside? && s.writeopen && s' == s.(procs := s.procs[p := Writing(bytes, false)])
       case EnterRead(p, n) => p < |s.procs| && s.procs[p].Outside? && s.readopen && s' == s.(procs := s.procs[p := Reading(n, false)])
       case Write(p, killed) => p < |s.procs| && s.procs[p].Writing? && !s.procs[p].asleep && WriteStep(s, p, killed, s')
       case Read(p, killed) => p < |s.procs| && s.procs[p].Reading? && !s.procs[p].asleep && ReadStep(s, p, killed, s')
       case Close(writable) => CloseStep(s, writable, s')
       case Rouse(p) => p < |s.procs| && !s.procs[p].Outside? && s' == s.(procs := s.procs[p := WokenReader(WokenWriter(s.procs[p]))])
  }

  // ----------------------------------------------------------- invariant

  /** A sleeping reader means empty and writable, a sleeping writer means full and readable. */
  ghost predicate SleepOk(s: State, q: Proc) {
    && (q.Reading? ==> s.readopen) && (q.Writing? ==> s.writeopen)
    && (q.Reading? && q.asleep ==> |s.ring.written| == |s.ring.read| && s.writeopen)
    && (q.Writing? && q.asleep ==> |s.ring.written| - |s.ring.read| == PIPESIZE && s.readopen)
  }

  ghost predicate Inv(s: State) {
    RingOk(s.ring) && forall k: nat :: k < |s.procs| ==> SleepOk(s, s.procs[k])
  }

  /** A writer that is killed after filling the pipe leaves without waking the readers. */
  ghost predicate LeavesReaders(s: State, a: Action) {
    && a.Write? && a.killed && a.p < |s.procs| && s.procs[a.p].Writing? && |s.procs[a.p].bytes| > PIPESIZE
    && exists k: nat :: k < |s.procs| && s.procs[k].Reading? && s.procs[k].asleep
  }

  lemma WriteRing(s: State, p: nat, killed: bool, s': State)
    requires Inv(s) && p < |s.procs| && s.procs[p].Writing? && WriteStep(s, p, killed, s')
    ensures var n := Min(|s.procs[p].bytes|, Room(s.ring));
            RingOk(s'.ring) && s'.ring.written == s.ring.written + s.procs[p].bytes[..n] && s'.ring.read == s.ring.read
  {
    PutAllOk(s.ring, s.procs[p].bytes[..Min(|s.procs[p].bytes|, Room(s.ring))]);
  }

  /** A write keeps the invariant unless it leaves readers asleep on a full pipe. */
  lemma WriteExactly(s: State, p: nat, killed: bool, s': State)
    requires Inv(s) && Next(s, Write(p, killed), s')
    ensures Inv(s') <==> !LeavesReaders(s, Write(p, killed))
  {
    hide RingOk, PutAll;
    WriteRing(s, p, killed, s');
    var bytes := s.procs[p].bytes;
    assert SleepOk(s, s.procs[p]);
    if LeavesReaders(s, Write(p, killed)) {
      var k: nat :| k < |s.procs| && s.procs[k].Reading? && s.procs[k].asleep;
      assert SleepOk(s, s.procs[k]);
      assert s'.procs[k] == s.procs[k];
      assert !SleepOk(s', s'.procs[k]);
    } else {
      forall k: nat | k < |s'.procs|
        ensures SleepOk(s', s'.procs[k])
      {
        assert SleepOk(s, s.procs[k]);
      }
    }
  }

  lemma ReadKeeps(s: State, p: nat, killed: bool, s': State)
    requires Inv(s) && Next(s, Read(p, killed), s')
    ensures Inv(s')
    ensures s'.ring.written == s.ring.written && s.ring.read <= s'.ring.read
    ensures s'.procs[p].Outside? && !(s.ring.written == s.ring.read && s.writeopen) ==>
              |s'.ring.read| == |s.ring.read| + Min(s.procs[p].n, |s.ring.written| - |s.ring.read|)
  {
    var avail := |s.ring.written| - |s.ring.read|;
    TakeAllOk(s.ring, Min(s.procs[p].n, avail));
    forall k: nat | k < |s'.procs|
      ensures SleepOk(s', s'.procs[k])
    {
      assert SleepOk(s, s.procs[k]);
    }
  }

  lemma OtherKeeps(s: State, a: Action, s': State)
    requires Inv(s) && Next(s, a, s') && !a.Write? && !a.Read?
    ensures Inv(s') && s'.ring == s.ring
  {
    forall k: nat | k < |s'.procs|
      ensures SleepOk(s', s'.procs[k])
    {
      assert SleepOk(s, s.procs[k]);
    }
  }

  // ---------------------------------------------------------------- runs

  ghost predicate Run(ss: seq<State>, acts: seq<Action>) {
    |ss| == |acts| + 1 && forall n: nat :: n < |acts| ==> Next(ss[n], acts[n], ss[n + 1])
  }

  /** pipealloc */
  ghost predicate Init(s: State) {
    && |s.ring.data| == PIPESIZE && s.ring.nread == s.ring.nwrite == 0 && s.ring.written == s.ring.read == []
    && s.readopen && s.writeopen && forall k: nat :: k < |s.procs| ==> s.procs[k].Outside?
  }

  lemma RingStep(s: State, a: Action, s': State)
    requires RingOk(s.ring) && Next(s, a, s')
    ensures RingOk(s'.ring) && s.ring.written <= s'.ring.written && s.ring.read <= s'.ring.read
  {
    if a.Write? {
      PutAllOk(s.ring, s.procs[a.p].bytes[..Min(|s.procs[a.p].bytes|, Room(s.ring))]);
    } else if a.Read? {
      TakeAllOk(s.ring, Min(s.procs[a.p].n, |s.ring.written| - |s.ring.read|));
    }
  }

  /**
   In every run, kills included: what has been read is a prefix of what has been written, what
   lies between them fits the buffer, and the counters tell how much that is.
   */
  lemma {:induction false} Fifo(ss: seq<State>, acts: seq<Action>, n: nat)
    requires Run(ss, acts) && Init(ss[0]) && n <= |acts|
    ensures RingOk(ss[n].ring) && ss[n].ring.read <= ss[n].ring.written
    ensures (ss[n].ring.nwrite - ss[n].ring.nread) % TWO32 == |ss[n].ring.written| - |ss[n].ring.read| <= PIPESIZE
  {
    if n > 0 {
      Fifo(ss, acts, n - 1);
      assert Next(ss[n - 1], acts[n - 1], ss[n - 1 + 1]);
      RingStep(ss[n - 1], acts[n - 1], ss[n]);
    }
    Counters(ss[n].ring);
  }

  /** In every run without such an exit, in particular without kills: nobody sleeps who could go on. */
  lemma {:induction false} NoLostWakeup(ss: seq<State>, acts: seq<Action>, n: nat)
    requires Run(ss, acts) && Init(ss[0]) && n <= |acts|
    requires forall m: nat :: m < n ==> !LeavesReaders(ss[m], acts[m])
    ensures Inv(ss[n])
  {
    if n > 0 {
      NoLostWakeup(ss, acts, n - 1);
      var s, a, s' := ss[n - 1], acts[n - 1], ss[n];
      assert Next(ss[n - 1], acts[n - 1], ss[n - 1 + 1]);
      if a.Write? {
        WriteExactly(s, a.p, a.killed, s');
      } else if a.Read? {
        ReadKeeps(s, a.p, a.killed, s');
      } else {
        OtherKeeps(s, a, s');
      }
    }
  }

  // ------------------------------------------- a kill that loses a wakeup

  function NewPipe(procs: seq<Proc>): State {
    State(Ring(seq(PIPESIZE, _ => 0), 0, 0, [], []), true, true, procs)
  }

  function Long(): seq<Byte> {
    seq(PIPESIZE + 1, _ => 1)
  }

  /** A reader sleeps on the empty pipe; a writer fills it and is killed: the reader sleeps on. */
  lemma KillLosesWakeup() returns (ss: seq<State>, acts: seq<Action>)
    ensures Run(ss, acts) && Init(ss[0]) && |ss| == 5 && !Inv(ss[4])
    ensures |ss[4].procs| == 2 && ss[4].procs[0] == Reading(1, true) && |ss[4].ring.written| - |ss[4].ring.read| == PIPESIZE
  {
    hide PutAll;
    var s0 := NewPipe([Outside, Outside]);
    var s1 := NewPipe([Reading(1, false), Outside]);
    var s2 := NewPipe([Reading(1, true), Outside]);
    var s3 := NewPipe([Reading(1, true), Writing(Long(), false)]);
    PutAllOk(s3.ring, Long()[..PIPESIZE]);
    var s4 := State(PutAll(s3.ring, Long()[..PIPESIZE]), true, true, [Reading(1, true), Outside]);
    ss := [s0, s1, s2, s3, s4];
    acts := [EnterRead(0, 1), Read(0, false), EnterWrite(1, Long()), Write(1, true)];
    assert Next(s0, acts[0], s1);
    assert Next(s1, acts[1], s2);
    assert Next(s2, acts[2], s3);
    assert Next(s3, acts[3], s4);
    assert !SleepOk(s4, s4.procs[0]);
    forall n: nat | n < |acts|
      ensures Next(ss[n], acts[n], ss[n + 1])
    {
      assert n == 0 || n == 1 || n == 2 || n == 3;
    }
  }
}
