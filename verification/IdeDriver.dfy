/**
 ide.c's driver as it runs: idequeue is a list linked through qnext, with iderw walking to
 its end and ideintr taking its head.
 */
module IdeDriver {
  import opened CacheModel
  import opened IdeQueue

  const NIL: nat := NBUF

  /** The list from head through qnext is the queue. */
  ghost predicate LinkedFrom(queue: seq<nat>, head: nat, qnext: seq<nat>) {
    && |qnext| == NBUF && (forall k: nat :: k < |queue| ==> queue[k] < NBUF)
    && head == (if queue == [] then NIL else queue[0])
    && forall k: nat :: k < |queue| ==> LinkAt(queue, qnext, k)
  }

  ghost predicate LinkAt(queue: seq<nat>, qnext: seq<nat>, k: nat)
    requires k < |queue|
  {
    queue[k] < |qnext| && qnext[queue[k]] == if k + 1 < |queue| then queue[k + 1] else NIL
  }

  ghost predicate Apart(queue: seq<nat>) {
    forall j: nat, k: nat :: j < k < |queue| ==> queue[j] != queue[k]
  }

  /** b, not in the list, hung on its end. */
  lemma AppendLinked(queue: seq<nat>, head: nat, qnext: seq<nat>, b: nat)
    requires LinkedFrom(queue, head, qnext) && Apart(queue) && b < NBUF && b !in queue
    ensures queue == [] ==> LinkedFrom([b], b, qnext[b := NIL])
    ensures queue != [] ==> LinkedFrom(queue + [b], head, qnext[b := NIL][queue[|queue| - 1] := b])
  {
    if queue != [] {
      var q', n' := queue + [b], qnext[b := NIL][queue[|queue| - 1] := b];
      forall k: nat | k < |q'|
        ensures LinkAt(q', n', k)
      {
        if k < |queue| {
          assert LinkAt(queue, qnext, k) && queue[k] != b;
        }
      }
    }
  }

  lemma TakeLinked(queue: seq<nat>, head: nat, qnext: seq<nat>)
    requires LinkedFrom(queue, head, qnext) && queue != []
    ensures head < NBUF && LinkedFrom(queue[1..], qnext[head], qnext)
  {
    assert LinkAt(queue, qnext, 0);
    forall k: nat | k < |queue[1..]|
      ensures LinkAt(queue[1..], qnext, k)
    {
      assert LinkAt(queue, qnext, k + 1);
    }
  }

  class Driver {
    var cache: Cache
    var head: nat
    var qnext: seq<nat>
    var drive: Drive
    var phase: seq<Phase>
    ghost var queue: seq<nat>

    constructor (cache: Cache)
      requires |cache.bufs| == NBUF
      ensures this.cache == cache && Valid() && Model() == Ide.Ide(cache, [], Idle, seq(NBUF, _ => Away))
    {
      this.cache, head, qnext, drive, phase, queue := cache, NIL, seq(NBUF, _ => NIL), Idle, seq(NBUF, _ => Away), [];
    }

    ghost function Model(): Ide
      reads this
    {
      Ide.Ide(cache, queue, drive, phase)
    }

    ghost predicate Valid()
      reads this
    {
      |cache.bufs| == NBUF && IdeQueue.Inv(Model()) && LinkedFrom(queue, head, qnext)
    }

    method Idestart(b: nat)
      requires b < |cache.bufs|
      modifies this`drive
      ensures drive == Started(cache.bufs[b])
    {
      drive := Working(cache.bufs[b].dirty, cache.bufs[b].blockno, cache.bufs[b].data);
    }

    /** iderw up to its first sleep; the holder of b is not in iderw already. */
    method Iderw(b: nat)
      requires Valid() && CanDo(cache, Sync(b)) && phase[b] == Away
      modifies this
      ensures Valid() && Next(old(Model()), Enter(b), Model())
    {
      ghost var s := Model();
      assert b !in queue by {
        assert forall k: nat :: k < |queue| ==> Queued(s, queue[k]);
      }
      AppendLinked(queue, head, qnext, b);
      Append(b);
      if head == b {
        Idestart(b);
      }
      phase := phase[b := Asleep];
      EnterKeeps(s, b, Model());
    }

    /** The walk to the end of the list. */
    method Append(b: nat)
      requires b < NBUF && b !in queue && LinkedFrom(queue, head, qnext) && Apart(queue)
      modifies this`head, this`qnext, this`queue
      ensures queue == old(queue) + [b] && LinkedFrom(queue, head, qnext)
      ensures head == b <==> old(queue) == []
    {
      ghost var next0 := qnext;
      AppendLinked(queue, head, qnext, b);
      qnext := qnext[b := NIL];
      if head == NIL {
        head := b;
      } else {
        var last := head;
        ghost var k := 0;
        while qnext[last] != NIL
          invariant qnext == next0[b := NIL] && k < |queue| && last == queue[k] && last < NBUF
          decreases |queue| - k
        {
          assert LinkAt(queue, next0, k);
          last := qnext[last];
          k := k + 1;
        }
        assert LinkAt(queue, next0, k);
        qnext := qnext[last := b];
      }
      queue := queue + [b];
    }

    /** ideintr, when the device is done with the request at the head, or with nothing queued. */
    method Ideintr()
      requires Valid() && (drive.Finished? || queue == [])
      modifies this
      ensures Valid() && Next(old(Model()), Interrupt, Model())
    {
      ghost var s := Model();
      var b := head;
      if b == NIL {
        return;
      }
      TakeLinked(queue, head, qnext);
      assert forall k: nat :: k < |queue| ==> Queued(s, queue[k]);
      head := qnext[b];
      ghost var rest := queue[1..];
      queue := rest;
      cache := cache.(bufs := cache.bufs[b := Landed(cache.bufs[b], drive.data)]);
      phase := phase[b := Awake];
      if head != NIL {
        Idestart(head);
      } else {
        drive := Idle;
      }
      InterruptKeeps(s, Model());
    }
  }
}
